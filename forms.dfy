/** The two user-facing forms. A post form carries only `text`, `group` and
    `image`; a comment form only `text`: the author, the post and the
    timestamps are never user input. Validation follows Django's cleaning of
    those fields and answers with the list of failing fields; the text a
    valid form saves is the stripped text. */
module Forms {
  import opened Collections
  import opened Models

  /** What the image widget of a post form submits: nothing, the clear
      checkbox alone, an upload alone, or the checkbox together with an upload. */
  datatype ImageInput = NoFile | ClearFile | UploadFile(image: Image) | ClearAndUpload(image: Image)

  datatype PostForm = PostForm(text: string, group: Option<GroupId>, image: ImageInput)

  datatype CommentForm = CommentForm(text: string)

  /** A field-level validation message. */
  datatype FieldError = TextRequired | NullCharacter | UnknownGroup | ImageContradiction

  /** The characters Python's `str.strip()` removes: exactly those for which
      `str.isspace()` holds. */
  predicate IsSpace(c: char) {
    || ('\t' <= c <= '\r')
    || ('\U{1C}' <= c <= ' ')
    || c == '\U{85}' || c == '\U{A0}' || c == '\U{1680}'
    || ('\U{2000}' <= c <= '\U{200A}')
    || c == '\U{2028}' || c == '\U{2029}' || c == '\U{202F}' || c == '\U{205F}' || c == '\U{3000}'
  }

  /** A text made only of whitespace (the empty text included). */
  predicate Blank(text: string) {
    forall i :: 0 <= i < |text| ==> IsSpace(text[i])
  }

  /** The number of whitespace characters at the front of `s`. */
  function LeadingSpaces(s: string): (n: nat)
    ensures n <= |s|
    ensures forall i :: 0 <= i < n ==> IsSpace(s[i])
    ensures n < |s| ==> !IsSpace(s[n])
    decreases |s|
  {
    if s != [] && IsSpace(s[0]) then
      var m := LeadingSpaces(s[1..]);
      assert forall i :: 1 <= i < m + 1 ==> s[i] == s[1..][i - 1];
      m + 1
    else 0
  }

  /** The number of whitespace characters at the end of `s`. */
  function TrailingSpaces(s: string): (n: nat)
    ensures n <= |s|
    ensures forall i :: |s| - n <= i < |s| ==> IsSpace(s[i])
    ensures n < |s| ==> !IsSpace(s[|s| - 1 - n])
    decreases |s|
  {
    if s != [] && IsSpace(s[|s| - 1]) then
      var m := TrailingSpaces(s[..|s| - 1]);
      assert forall i :: |s| - 1 - m <= i < |s| - 1 ==> s[i] == s[..|s| - 1][i];
      m + 1
    else 0
  }

  /** Where `str.strip()` cuts `s`: only whitespace lies before `lo` and from
      `hi` on, and none at the inner edges; the bounds meet exactly when `s`
      is blank. */
  function StripBounds(s: string): (b: (nat, nat))
    ensures b.0 <= b.1 <= |s|
    ensures Blank(s[..b.0]) && Blank(s[b.1..])
    ensures b.0 < b.1 ==> !IsSpace(s[b.0]) && !IsSpace(s[b.1 - 1])
    ensures b.0 == b.1 <==> Blank(s)
  {
    var lo := LeadingSpaces(s);
    var hi := lo + (|s[lo..]| - TrailingSpaces(s[lo..]));
    StripEnds(s, lo, hi);
    StripEmpty(s, lo, hi);
    (lo, hi)
  }

  /** `str.strip()`: `s` without its leading and trailing whitespace. The
      result neither starts nor ends with whitespace, and it is empty exactly
      when `s` is blank. */
  function Strip(s: string): (r: string)
    ensures r != [] ==> !IsSpace(r[0]) && !IsSpace(r[|r| - 1])
    ensures r == [] <==> Blank(s)
  {
    var (lo, hi) := StripBounds(s);
    s[lo..hi]
  }

  /** Stripping removes nothing but the whitespace at the two ends: the
      stripped text, with that whitespace put back around it, is `s`. */
  lemma StripKeepsMiddle(s: string)
    ensures var (lo, hi) := StripBounds(s); s == s[..lo] + Strip(s) + s[hi..]
  {
    var (lo, hi) := StripBounds(s);
    assert Strip(s) == s[lo..hi];
    assert s == s[..lo] + s[lo..hi] + s[hi..];
  }

  /** The bounds `Strip` cuts at have only whitespace outside them and none
      at their inner edges. */
  lemma StripEnds(s: string, lo: nat, hi: nat)
    requires lo == LeadingSpaces(s) && hi == lo + (|s[lo..]| - TrailingSpaces(s[lo..]))
    ensures lo <= hi <= |s|
    ensures Blank(s[..lo]) && Blank(s[hi..])
    ensures lo < hi ==> !IsSpace(s[lo]) && !IsSpace(s[hi - 1])
  {
    var t := s[lo..];
    forall i | 0 <= i < lo ensures IsSpace(s[..lo][i]) {
      assert s[..lo][i] == s[i];
    }
    forall i | 0 <= i < |s| - hi ensures IsSpace(s[hi..][i]) {
      assert s[hi..][i] == t[hi - lo + i];
    }
    if lo < hi {
      assert t[hi - lo - 1] == s[hi - 1];
    }
  }

  /** The bounds meet exactly when the whole text is whitespace. */
  lemma StripEmpty(s: string, lo: nat, hi: nat)
    requires lo == LeadingSpaces(s) && hi == lo + (|s[lo..]| - TrailingSpaces(s[lo..]))
    ensures lo == hi <==> Blank(s)
  {
    StripEnds(s, lo, hi);
    if lo == hi {
      assert s[..lo] == s;
    } else {
      assert !IsSpace(s[lo]);
    }
  }

  /** Errors of a required text field: blank once stripped (first), or
      holding a NUL character. */
  function TextErrors(text: string): (errors: seq<FieldError>)
    ensures TextRequired in errors <==> Blank(text)
    ensures NullCharacter in errors <==> !Blank(text) && '\0' in text
    ensures errors == [] <==> !Blank(text) && '\0' !in text
    ensures |errors| <= 1
  {
    if Blank(text) then [TextRequired]
    else if '\0' in text then [NullCharacter]
    else []
  }

  /** Errors of a post form: its text is required and free of NUL; its group,
      when chosen, must be one of the existing groups; the clear checkbox and
      an upload together contradict each other. */
  function PostFormErrors(form: PostForm, groups: seq<Group>): (errors: seq<FieldError>)
    ensures errors == [] <==>
              && !Blank(form.text) && '\0' !in form.text
              && (form.group.Some? ==> form.group.value in GroupIds(groups))
              && !form.image.ClearAndUpload?
    ensures TextRequired in errors <==> Blank(form.text)
    ensures NullCharacter in errors <==> !Blank(form.text) && '\0' in form.text
    ensures UnknownGroup in errors <==> form.group.Some? && form.group.value !in GroupIds(groups)
    ensures ImageContradiction in errors <==> form.image.ClearAndUpload?
    ensures |errors| <= 3
  {
    TextErrors(form.text)
    + (if form.group.Some? && form.group.value !in GroupIds(groups) then [UnknownGroup] else [])
    + (if form.image.ClearAndUpload? then [ImageContradiction] else [])
  }

  /** Errors of a comment form: its text is required and free of NUL. */
  function CommentFormErrors(form: CommentForm): (errors: seq<FieldError>)
    ensures errors == [] <==> !Blank(form.text) && '\0' !in form.text
    ensures UnknownGroup !in errors && ImageContradiction !in errors
  {
    TextErrors(form.text)
  }

  /** The image a saved post holds: the stored one when nothing is submitted,
      none when the clear checkbox is ticked, the upload when there is one. */
  function StoredImage(input: ImageInput, current: Option<Image>): Option<Image>
    requires !input.ClearAndUpload?
  {
    match input
    case NoFile => current
    case ClearFile => None
    case UploadFile(img) => Some(img)
  }

  /** A bound post form (a submitted one) with no errors; `None` is an unbound form. */
  predicate PostAccepted(submitted: Option<PostForm>, groups: seq<Group>) {
    submitted.Some? && PostFormErrors(submitted.value, groups) == []
  }

  predicate CommentAccepted(submitted: Option<CommentForm>) {
    submitted.Some? && CommentFormErrors(submitted.value) == []
  }
}
