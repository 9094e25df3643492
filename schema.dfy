/**
 * The validation rules of the post form (`contentSchema`) and of the featured-image URL form
 * (`featuredImageFormSchema`): trimming, required fields, the title length limit and the `isPublic` default.
 */
module Schema {
  import opened Base

  /** The white space and line terminators `String.prototype.trim` removes. */
  predicate IsTrimmable(c: char)
  {
    || c == '\t' || c == '\n' || c == '\U{000B}' || c == '\U{000C}' || c == '\r' || c == ' '
    || c == '\U{00A0}' || c == '\U{1680}' || ('\U{2000}' <= c <= '\U{200A}')
    || c == '\U{2028}' || c == '\U{2029}' || c == '\U{202F}' || c == '\U{205F}' || c == '\U{3000}'
    || c == '\U{FEFF}'
  }

  /** Drops leading white space: the result is a suffix, and only white space was dropped. */
  function TrimStart(s: string): (r: string)
    ensures |r| <= |s| && r == s[|s| - |r|..]
    ensures r == [] || !IsTrimmable(r[0])
    ensures forall i :: 0 <= i < |s| - |r| ==> IsTrimmable(s[i])
  {
    if s != [] && IsTrimmable(s[0]) then TrimStart(s[1..]) else s
  }

  /** Drops trailing white space: the result is a prefix, and only white space was dropped. */
  function TrimEnd(s: string): (r: string)
    ensures |r| <= |s| && r == s[..|r|]
    ensures r == [] || !IsTrimmable(r[|r| - 1])
    ensures forall i :: |r| <= i < |s| ==> IsTrimmable(s[i])
  {
    if s != [] && IsTrimmable(s[|s| - 1]) then TrimEnd(s[..|s| - 1]) else s
  }

  function Trim(s: string): (r: string)
    ensures r == [] || (!IsTrimmable(r[0]) && !IsTrimmable(r[|r| - 1]))
  {
    var t := TrimStart(s);
    var r := TrimEnd(t);
    assert r != [] ==> r[0] == t[0];
    r
  }

  /** Trimming is idempotent: a trimmed value passes through the schema unchanged. */
  lemma TrimIdempotent(s: string)
    ensures Trim(Trim(s)) == Trim(s)
  {
    var r := Trim(s);
    assert TrimStart(r) == r;
    assert TrimEnd(r) == r;
  }

  /** A value trims to nothing exactly when it is all white space. */
  lemma TrimEmpty(s: string)
    ensures Trim(s) == [] <==> forall i :: 0 <= i < |s| ==> IsTrimmable(s[i])
  {
    var t := TrimStart(s);
    if Trim(s) == [] {
      assert t == [];
    } else {
      var r := Trim(s);
      assert r[0] == t[0] == s[|s| - |t|];
    }
  }

  /** `String.prototype.length`: UTF-16 code units, two for a character outside the Basic Multilingual Plane. */
  function Utf16Length(s: string): (n: nat)
    ensures |s| <= n <= 2 * |s|
  {
    if s == [] then 0 else (if s[0] as int > 0xFFFF then 2 else 1) + Utf16Length(s[1..])
  }

  /** The form values as the form hands them over; `None` is a field left `undefined`. */
  datatype ContentInput = ContentInput(
    title: string,
    featuredImage: Option<string>,
    author: string,
    slug: string,
    mdxContent: string,
    isPublic: Option<bool>)

  /** The values `onSubmit` receives once the schema accepts the form. */
  datatype Content = Content(
    title: string,
    featuredImage: Option<string>,
    author: string,
    slug: string,
    mdxContent: string,
    isPublic: bool)

  /** A validation message attached to a field. */
  datatype Issue = Issue(path: string, message: string)

  predicate TitleAccepted(title: string)
  {
    1 <= Utf16Length(Trim(title)) <= 100
  }

  function TitleIssues(title: string): seq<Issue>
  {
    var t := Trim(title);
    (if Utf16Length(t) < 1 then [Issue("title", "Title is required!")] else [])
    + (if Utf16Length(t) > 100 then [Issue("title", "Title is too long")] else [])
  }

  function TrimOptional(s: Option<string>): Option<string>
  {
    if s.Some? then Some(Trim(s.value)) else None
  }

  /**
   * `contentSchema.safeParse`: every field is checked and all issues are reported. Title, author and
   * slug are trimmed before their length checks; `mdxContent` is taken as it is; `isPublic` defaults to false.
   */
  function ParseContent(input: ContentInput): (r: Result<Content, seq<Issue>>)
    ensures r.Ok? <==> TitleAccepted(input.title) && Trim(input.author) != [] && Trim(input.slug) != []
    ensures r.Ok? ==>
      && r.value.title == Trim(input.title)
      && r.value.author == Trim(input.author)
      && r.value.slug == Trim(input.slug)
      && r.value.featuredImage == TrimOptional(input.featuredImage)
      && r.value.mdxContent == input.mdxContent
      && r.value.isPublic == (input.isPublic == Some(true))
    ensures r.Err? ==> r.error != []
  {
    var issues :=
      TitleIssues(input.title)
      + (if Trim(input.author) == [] then [Issue("author", "Author is required!")] else [])
      + (if Trim(input.slug) == [] then [Issue("slug", "Slug is required!")] else []);
    if issues == [] then
      Ok(Content(
        Trim(input.title), TrimOptional(input.featuredImage), Trim(input.author), Trim(input.slug),
        input.mdxContent, if input.isPublic.Some? then input.isPublic.value else false))
    else Err(issues)
  }

  /** The values handed back to the form: what a second validation of accepted values would see. */
  function AsInput(c: Content): ContentInput
  {
    ContentInput(c.title, c.featuredImage, c.author, c.slug, c.mdxContent, Some(c.isPublic))
  }

  /** Validating values the schema already accepted accepts them again, unchanged. */
  lemma ParseContentIdempotent(input: ContentInput)
    requires ParseContent(input).Ok?
    ensures ParseContent(AsInput(ParseContent(input).value)) == ParseContent(input)
  {
    var c := ParseContent(input).value;
    TrimIdempotent(input.title);
    TrimIdempotent(input.author);
    TrimIdempotent(input.slug);
    assert Trim(c.title) == c.title && Trim(c.author) == c.author && Trim(c.slug) == c.slug;
    if input.featuredImage.Some? {
      TrimIdempotent(input.featuredImage.value);
    }
    assert TrimOptional(c.featuredImage) == c.featuredImage;
    var r := ParseContent(AsInput(c));
    assert r.Ok?;
    assert r.value == c;
  }

  /** `featuredImageFormSchema`: any string is a valid URL field, unchanged. */
  function ParseFeaturedImageForm(featuredImageUrl: string): (r: Result<string, seq<Issue>>)
    ensures r.Ok? && r.value == featuredImageUrl
  {
    Ok(featuredImageUrl)
  }
}
