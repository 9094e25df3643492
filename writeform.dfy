/**
 * The post editor form: slug generation, the rendered-HTML clean-up, the meta record a submission writes
 * (with its publication fields), the fan-out of writes across the four post collections, and the form
 * state (`currentPost`, `error`, `isSubmitting`, navigation) around loading and submitting a post.
 */
module WriteForm {
  import opened Base
  import opened Firestore
  import opened Posts
  import Schema
  import EditorComponent

  // ---------------------------------------------------------------------------------------------
  // Slugs

  /**
   * `toLowerCase` on one character, exact for every character whose lower case can survive the slug
   * filter: `A`-`Z`, the dotted capital I (which lowers to `i` and a combining dot) and the Kelvin sign.
   * Every other character either is its own lower case or lowers to characters the filter drops.
   */
  function LowerChar(c: char): (r: string)
    ensures 1 <= |r| <= 2
    ensures forall x :: x in r ==> !('A' <= x <= 'Z')
    ensures IsSlugChar(c) ==> r == [c]
  {
    if 'A' <= c <= 'Z' then [(c as int + 32) as char]
    else if c == '\U{0130}' then ['i', '\U{0307}']
    else if c == '\U{212A}' then ['k']
    else [c]
  }

  /**
   * `toLowerCase`, exact for the characters `LowerChar` covers: no letter `A`-`Z` is left, and no character
   * lowers to more than two.
   */
  function LowerCase(s: string): (r: string)
    ensures |s| <= |r| <= 2 * |s|
    ensures forall x :: x in r ==> !('A' <= x <= 'Z')
  {
    if s == [] then [] else LowerChar(s[0]) + LowerCase(s[1..])
  }

  /** `replace(/ /g, "-")`. */
  function HyphenateSpaces(s: string): (r: string)
    ensures |r| == |s| && ' ' !in r
    ensures forall i :: 0 <= i < |s| ==> r[i] == if s[i] == ' ' then '-' else s[i]
  {
    if s == [] then [] else [if s[0] == ' ' then '-' else s[0]] + HyphenateSpaces(s[1..])
  }

  /** The characters `[a-z0-9\-]` a slug keeps. */
  predicate IsSlugChar(c: char)
  {
    'a' <= c <= 'z' || '0' <= c <= '9' || c == '-'
  }

  /** `generateSlug`'s transform of the title: lower-case, spaces to hyphens, everything else dropped. */
  function Slugify(title: string): (slug: string)
    ensures forall c :: c in slug ==> IsSlugChar(c)
    ensures ' ' !in slug
  {
    Filter(HyphenateSpaces(LowerCase(title)), IsSlugChar)
  }

  /** What one character of a title contributes to its slug, written as a table. */
  function SlugOfChar(c: char): string
  {
    if IsSlugChar(c) then [c]
    else if 'A' <= c <= 'Z' then [(c as int + 32) as char]
    else if c == ' ' then "-"
    else if c == '\U{0130}' then "i"
    else if c == '\U{212A}' then "k"
    else ""
  }

  lemma {:induction false} LowerCaseAppend(a: string, b: string)
    ensures LowerCase(a + b) == LowerCase(a) + LowerCase(b)
  {
    if a != [] {
      assert (a + b)[1..] == a[1..] + b;
      LowerCaseAppend(a[1..], b);
    } else {
      assert a + b == b;
    }
  }

  lemma {:induction false} HyphenateSpacesAppend(a: string, b: string)
    ensures HyphenateSpaces(a + b) == HyphenateSpaces(a) + HyphenateSpaces(b)
  {
    if a != [] {
      assert (a + b)[1..] == a[1..] + b;
      HyphenateSpacesAppend(a[1..], b);
    } else {
      assert a + b == b;
    }
  }

  /** The slug of a concatenation is the concatenation of the slugs: the transform works character by character. */
  lemma SlugifyAppend(a: string, b: string)
    ensures Slugify(a + b) == Slugify(a) + Slugify(b)
  {
    LowerCaseAppend(a, b);
    HyphenateSpacesAppend(LowerCase(a), LowerCase(b));
    FilterAppend(HyphenateSpaces(LowerCase(a)), HyphenateSpaces(LowerCase(b)), IsSlugChar);
  }

  /** Each character contributes what the table says; with `SlugifyAppend` this fixes the slug of every title. */
  lemma SlugifyChar(c: char)
    ensures Slugify([c]) == SlugOfChar(c)
  {
    assert LowerCase([c]) == LowerChar(c) by {
      assert [c][1..] == [];
    }
    if c == '\U{0130}' {
      var l := ['i', '\U{0307}'];
      assert HyphenateSpaces(l) == l by {
        assert l[1..] == ['\U{0307}'];
        assert HyphenateSpaces(l[1..]) == ['\U{0307}'];
      }
      assert Filter(l, IsSlugChar) == "i" by {
        assert l[1..] == ['\U{0307}'];
        assert Filter(l[1..], IsSlugChar) == [];
      }
    } else {
      assert |LowerChar(c)| == 1;
      var l := LowerChar(c);
      assert HyphenateSpaces(l) == [if l[0] == ' ' then '-' else l[0]] by {
        assert l[1..] == [];
      }
    }
  }

  lemma {:induction false} LowerCaseOfSlug(s: string)
    requires forall c :: c in s ==> IsSlugChar(c)
    ensures LowerCase(s) == s
  {
    if s != [] {
      assert s[0] in s;
      assert LowerChar(s[0]) == [s[0]];
      assert forall i :: 0 <= i < |s[1..]| ==> s[1..][i] == s[i + 1];
      LowerCaseOfSlug(s[1..]);
    }
  }

  lemma {:induction false} HyphenateSpacesOfSlug(s: string)
    requires ' ' !in s
    ensures HyphenateSpaces(s) == s
  {
    if s != [] {
      assert s[0] in s;
      assert ' ' !in s[1..] by {
        assert forall c :: c in s[1..] ==> c in s;
      }
      HyphenateSpacesOfSlug(s[1..]);
    }
  }

  /** A string made only of slug characters is its own slug. */
  lemma SlugifyOfSlug(s: string)
    requires forall c :: c in s ==> IsSlugChar(c)
    ensures Slugify(s) == s
  {
    LowerCaseOfSlug(s);
    assert !IsSlugChar(' ');
    HyphenateSpacesOfSlug(s);
    FilterKeepsAll(s, IsSlugChar);
  }

  /** Generating a slug from a slug changes nothing. */
  lemma SlugifyIdempotent(title: string)
    ensures Slugify(Slugify(title)) == Slugify(title)
  {
    SlugifyOfSlug(Slugify(title));
  }

  // ---------------------------------------------------------------------------------------------
  // Line breaks

  predicate NotLineFeed(c: char)
  {
    c != '\n'
  }

  /** `removeLineBreaks`: `replace(/\n/g, "")`. */
  function RemoveLineBreaks(s: string): (r: string)
    ensures '\n' !in r
    ensures |r| <= |s|
  {
    Filter(s, NotLineFeed)
  }

  /** Every character other than a line feed occurs as often as before. */
  lemma RemoveLineBreaksCounts(s: string, c: char)
    ensures multiset(RemoveLineBreaks(s))[c] == if c == '\n' then 0 else multiset(s)[c]
  {
    FilterCount(s, NotLineFeed, c);
  }

  /** Line feeds are removed piece by piece, so the remaining characters keep their order. */
  lemma RemoveLineBreaksAppend(a: string, b: string)
    ensures RemoveLineBreaks(a + b) == RemoveLineBreaks(a) + RemoveLineBreaks(b)
  {
    FilterAppend(a, b, NotLineFeed);
  }

  /** Text without line feeds is left as it is; in particular the clean-up is idempotent. */
  lemma RemoveLineBreaksIdempotent(s: string)
    ensures '\n' !in s ==> RemoveLineBreaks(s) == s
    ensures RemoveLineBreaks(RemoveLineBreaks(s)) == RemoveLineBreaks(s)
  {
    if '\n' !in s {
      FilterKeepsAll(s, NotLineFeed);
    }
    FilterIdempotent(s, NotLineFeed);
  }

  // ---------------------------------------------------------------------------------------------
  // The meta record and its publication fields

  datatype Mode = Create | Edit

  /**
   * The meta record a submission writes: the submitted fields as they are, and publication fields that
   * take `isPublic` and stamp the date on create and on the first publication of an unpublished post.
   * `currentPublished` is the loaded post's `isPublished`; it matters only when editing.
   */
  function SubmittedMeta(values: Schema.Content, featuredImage: string, mode: Mode, currentPublished: bool, now: int): (m: Meta)
    ensures m.title == values.title && m.slug == values.slug && m.author == values.author
    ensures m.featuredImage == featuredImage && m.isPublic == values.isPublic && m.lastUpdated == now
    ensures mode == Create ==> m.isPublished == values.isPublic && m.publishedDate == Some(now)
    ensures mode == Edit && !currentPublished ==>
      m.isPublished == values.isPublic && (m.publishedDate.Some? <==> values.isPublic) && (values.isPublic ==> m.publishedDate == Some(now))
    ensures mode == Edit && currentPublished ==> m.isPublished == values.isPublic && m.publishedDate == None
  {
    var stamped := mode == Create || (!currentPublished && values.isPublic);
    Meta(featuredImage, values.title, values.slug, values.author, now, values.isPublic, values.isPublic,
      if stamped then Some(now) else None)
  }

  /** The publication fields of a post. */
  datatype Publication = Publication(isPublic: bool, isPublished: bool, publishedDate: Option<int>)

  /**
   * The publication latch the dashboard toggle keeps (`Dashboard.tsx:180-188`, which never unpublishes a
   * post and never re-dates a post whose row shows it published) and the edit branch's "already published"
   * comment asks for: publishing is one-way and keeps the first publication date, and visibility is a
   * separate flag.
   */
  function NextPublication(mode: Mode, current: Publication, requestedPublic: bool, now: int): (p: Publication)
    ensures p.isPublic == requestedPublic
    ensures mode == Edit && current.isPublished ==> p.isPublished && p.publishedDate == current.publishedDate
    ensures p.publishedDate.Some? && !(mode == Edit && current.isPublished) ==> p.isPublished
  {
    if mode == Create then Publication(requestedPublic, requestedPublic, if requestedPublic then Some(now) else None)
    else if current.isPublished then Publication(requestedPublic, true, current.publishedDate)
    else if requestedPublic then Publication(true, true, Some(now))
    else Publication(false, false, None)
  }

  /**
   * Where the submitted record departs from the latch: a private create is dated, and an edit of a
   * published post drops its date and, when saved private, unpublishes it. It agrees everywhere else.
   */
  lemma SubmittedMetaAgainstLatch(values: Schema.Content, featuredImage: string, mode: Mode, current: Publication, now: int)
    ensures var m := SubmittedMeta(values, featuredImage, mode, current.isPublished, now);
            var p := NextPublication(mode, current, values.isPublic, now);
            && m.isPublic == p.isPublic
            && ((mode == Create && values.isPublic) || (mode == Edit && !current.isPublished) ==>
                  m.isPublished == p.isPublished && m.publishedDate == p.publishedDate)
            && (mode == Create && !values.isPublic ==> m.publishedDate == Some(now) && p.publishedDate == None)
            && (mode == Edit && current.isPublished ==>
                  m.publishedDate == None && p.publishedDate == current.publishedDate
                  && (m.isPublished != p.isPublished <==> !values.isPublic))
  {
  }

  // ---------------------------------------------------------------------------------------------
  // The writes of a submission

  /** The MDX document: the Markdown source and the rendered HTML. */
  function MdxFields(source: string, html: string): Doc
  {
    map["mdxContent" := Str(source), "content" := Str(html)]
  }

  function ContentFields(html: string): Doc
  {
    map["content" := Str(html)]
  }

  const ReadCountDoc: Doc := map["readCount" := Int(0)]

  /** The collections a submission writes, in order. */
  function Written(mode: Mode): seq<string>
  {
    if mode == Create then [META, MDX, CONTENT, READS] else [META, MDX, CONTENT]
  }

  /** What a submission writes to each collection of `Written(mode)`, in the same order. */
  function Payloads(mode: Mode, m: Meta, source: string, html: string): seq<Doc>
  {
    if mode == Create then [MetaDoc(m), MdxFields(source, html), ContentFields(html), ReadCountDoc]
    else [MetaDoc(m), MdxFields(source, html), ContentFields(html)]
  }

  /** Create overwrites all four documents of the post; edit merges into the meta, MDX and content documents. */
  function SubmitWrites(mode: Mode, m: Meta, source: string, html: string): (ws: seq<Write>)
    ensures |ws| == |Written(mode)| == |Payloads(mode, m, source, html)|
    ensures forall i :: 0 <= i < |ws| ==>
      && ws[i].collection == Written(mode)[i] && ws[i].key == m.slug
      && (mode == Create ==> ws[i] == Set(Written(mode)[i], m.slug, Payloads(mode, m, source, html)[i]))
      && (mode == Edit ==> ws[i] == Update(Written(mode)[i], m.slug, Payloads(mode, m, source, html)[i]))
  {
    var p := Payloads(mode, m, source, html);
    if mode == Create then
      [Set(META, m.slug, p[0]), Set(MDX, m.slug, p[1]), Set(CONTENT, m.slug, p[2]), Set(READS, m.slug, p[3])]
    else
      [Update(META, m.slug, p[0]), Update(MDX, m.slug, p[1]), Update(CONTENT, m.slug, p[2])]
  }

  lemma SubmitWritesDistinct(mode: Mode, m: Meta, source: string, html: string)
    ensures DistinctTargets(SubmitWrites(mode, m, source, html))
    ensures Targets(SubmitWrites(mode, m, source, html)) == set i | 0 <= i < |Written(mode)| :: (Written(mode)[i], m.slug)
  {
    var ws := SubmitWrites(mode, m, source, html);
    assert forall i :: 0 <= i < |ws| ==> Target(ws[i]) == (Written(mode)[i], m.slug);
  }

  /**
   * Creating a post: the calls before the first faulted one took effect, in order, each overwriting its
   * document; the faulted call and all later ones wrote nothing; documents of other posts or other
   * collections are untouched. Only a fault stops a create.
   */
  lemma CreateOutcome(db: Db, m: Meta, source: string, html: string, fault: nat -> Option<string>)
    ensures var o := Run(db, SubmitWrites(Create, m, source, html), fault);
            var k := Completed(o, 4);
            && k <= 4
            && (forall i :: 0 <= i < k ==> fault(i).None?)
            && (o.failure.Some? ==> fault(k).Some? && o.failure.value.1 == Failed(fault(k).value))
            && (forall i :: 0 <= i < 4 ==>
                  Get(o.db, Written(Create)[i], m.slug)
                  == if i < k then Some(Payloads(Create, m, source, html)[i]) else Get(db, Written(Create)[i], m.slug))
            && (forall c, key :: key != m.slug || c !in Written(Create) ==> SameAt(o.db, db, c, key))
  {
    var ws := SubmitWrites(Create, m, source, html);
    SubmitWritesDistinct(Create, m, source, html);
    RunDistinct(db, ws, fault);
    RunFrame(db, ws, fault);
    var o := Run(db, ws, fault);
    forall c, key | key != m.slug || c !in Written(Create) ensures SameAt(o.db, db, c, key) {
      assert (c, key) !in Targets(ws);
    }
  }

  /**
   * Editing a post: the calls before the first failing one merged their fields into existing documents;
   * a call fails when it is faulted or its document does not exist, and then it and every later call
   * wrote nothing. Documents of other posts or other collections are untouched.
   */
  lemma EditOutcome(db: Db, m: Meta, source: string, html: string, fault: nat -> Option<string>)
    ensures var o := Run(db, SubmitWrites(Edit, m, source, html), fault);
            var k := Completed(o, 3);
            var stores := Written(Edit);
            && k <= 3
            && (forall i :: 0 <= i < k ==> fault(i).None? && Get(db, stores[i], m.slug).Some?)
            && (o.failure.Some? ==>
                  o.failure.value.1 == if fault(k).Some? then Failed(fault(k).value) else NotFound(stores[k], m.slug))
            && (o.failure.Some? && fault(k).None? ==> Get(db, stores[k], m.slug).None?)
            && (forall i :: 0 <= i < 3 ==>
                  Get(o.db, stores[i], m.slug)
                  == if i < k then Some(Get(db, stores[i], m.slug).value + Payloads(Edit, m, source, html)[i])
                     else Get(db, stores[i], m.slug))
            && (forall c, key :: key != m.slug || c !in stores ==> SameAt(o.db, db, c, key))
  {
    var ws := SubmitWrites(Edit, m, source, html);
    SubmitWritesDistinct(Edit, m, source, html);
    RunDistinct(db, ws, fault);
    RunFrame(db, ws, fault);
    var o := Run(db, ws, fault);
    forall c, key | key != m.slug || c !in Written(Edit) ensures SameAt(o.db, db, c, key) {
      assert (c, key) !in Targets(ws);
    }
  }

  /** An edit never writes a read counter, however far it gets. */
  lemma EditKeepsReadCounts(db: Db, m: Meta, source: string, html: string, fault: nat -> Option<string>)
    ensures forall key :: SameAt(Run(db, SubmitWrites(Edit, m, source, html), fault).db, db, READS, key)
  {
    SubmitWritesDistinct(Edit, m, source, html);
    RunFrame(db, SubmitWrites(Edit, m, source, html), fault);
  }

  /** Reading the fields of the MDX and content payloads back, after a merge into any prior document. */
  lemma PayloadLookups(prior: Doc, source: string, html: string)
    ensures Lookup(prior + MdxFields(source, html), "mdxContent") == Some(Str(source))
    ensures Lookup(prior + MdxFields(source, html), "content") == Some(Str(html))
    ensures Lookup(prior + ContentFields(html), "content") == Some(Str(html))
  {
  }

  /**
   * After a create that went through, the post reads back as submitted: the meta document parses to the
   * record, the MDX document holds the source and the HTML, the content document the HTML, and the post
   * starts with zero reads.
   */
  lemma CreateReadBack(db: Db, m: Meta, source: string, html: string, fault: nat -> Option<string>)
    requires Run(db, SubmitWrites(Create, m, source, html), fault).failure.None?
    ensures var db' := Run(db, SubmitWrites(Create, m, source, html), fault).db;
            && Get(db', META, m.slug).Some? && ParseMeta(Get(db', META, m.slug).value) == Some(m)
            && Get(db', MDX, m.slug) == Some(MdxFields(source, html))
            && Get(db', CONTENT, m.slug) == Some(ContentFields(html))
            && Get(db', READS, m.slug) == Some(ReadCountDoc)
  {
    var ws := SubmitWrites(Create, m, source, html);
    var o := Run(db, ws, fault);
    SubmitWritesDistinct(Create, m, source, html);
    RunDistinct(db, ws, fault);
    assert Completed(o, |ws|) == |ws|;
    var p := Payloads(Create, m, source, html);
    assert ws == [Set(META, m.slug, p[0]), Set(MDX, m.slug, p[1]), Set(CONTENT, m.slug, p[2]), Set(READS, m.slug, p[3])];
    assert Get(o.db, META, m.slug) == Some(MetaDoc(m));
    assert Get(o.db, MDX, m.slug) == Some(MdxFields(source, html));
    assert Get(o.db, CONTENT, m.slug) == Some(ContentFields(html));
    assert Get(o.db, READS, m.slug) == Some(ReadCountDoc);
    ParseMetaDoc(m, map[]);
  }

  /**
   * After an edit that went through, the post reads back as submitted: the merged meta document parses
   * to the record, the MDX document holds the source and the HTML, the content document the HTML.
   */
  lemma EditReadBack(db: Db, m: Meta, source: string, html: string, fault: nat -> Option<string>)
    requires Run(db, SubmitWrites(Edit, m, source, html), fault).failure.None?
    ensures var db' := Run(db, SubmitWrites(Edit, m, source, html), fault).db;
            && Get(db', META, m.slug).Some? && ParseMeta(Get(db', META, m.slug).value) == Some(m)
            && Get(db', MDX, m.slug).Some?
            && Lookup(Get(db', MDX, m.slug).value, "mdxContent") == Some(Str(source))
            && Lookup(Get(db', MDX, m.slug).value, "content") == Some(Str(html))
            && Get(db', CONTENT, m.slug).Some?
            && Lookup(Get(db', CONTENT, m.slug).value, "content") == Some(Str(html))
  {
    var ws := SubmitWrites(Edit, m, source, html);
    var o := Run(db, ws, fault);
    SubmitWritesDistinct(Edit, m, source, html);
    RunDistinct(db, ws, fault);
    assert Completed(o, |ws|) == |ws|;
    var p := Payloads(Edit, m, source, html);
    assert ws == [Update(META, m.slug, p[0]), Update(MDX, m.slug, p[1]), Update(CONTENT, m.slug, p[2])];
    assert Succeeds(db, ws[0], fault(0)) && Succeeds(db, ws[1], fault(1)) && Succeeds(db, ws[2], fault(2));
    var prior := Get(db, META, m.slug).value;
    assert Get(o.db, META, m.slug) == Some(prior + MetaDoc(m));
    assert Get(o.db, MDX, m.slug) == Some(Get(db, MDX, m.slug).value + MdxFields(source, html));
    assert Get(o.db, CONTENT, m.slug) == Some(Get(db, CONTENT, m.slug).value + ContentFields(html));
    ParseMetaDoc(m, prior);
    PayloadLookups(Get(db, MDX, m.slug).value, source, html);
    PayloadLookups(Get(db, CONTENT, m.slug).value, source, html);
  }

  /** A submission leaves every meta document a full listing record and every MDX document with its source. */
  lemma SubmitKeepsWellFormed(db: Db, mode: Mode, m: Meta, source: string, html: string, fault: nat -> Option<string>)
    requires WellFormed(db)
    ensures WellFormed(Run(db, SubmitWrites(mode, m, source, html), fault).db)
  {
    var ws := SubmitWrites(mode, m, source, html);
    ParseMetaDoc(m, map[]);
    assert map[] + MetaDoc(m) == MetaDoc(m);
    assert MetaFieldsTyped(MetaDoc(m));
    assert forall i :: 0 <= i < |ws| ==> KeepsWellFormed(ws[i]);
    RunKeepsWellFormed(db, ws, fault);
  }

  /** The message `onSubmit` shows when a call of the fan-out rejects. */
  function SubmitError(mode: Mode, e: StoreError): (msg: string)
    ensures |msg| >= 23 + |Message(e)| && "Error in " <= msg && msg[|msg| - |Message(e)|..] == Message(e)
    ensures mode == Create <==> "Error in creating" <= msg
  {
    var msg := "Error in " + (if mode == Create then "creating" else "editing") + " post: " + Message(e);
    assert msg[9] == if mode == Create then 'c' else 'e';
    msg
  }

  /** The post's own meta and MDX documents, where they exist, have the shapes the form reads from them. */
  predicate PostTyped(db: Db, key: string)
  {
    && (Get(db, META, key).Some? ==> IsMetaDoc(Get(db, META, key).value))
    && (Get(db, MDX, key).Some? ==> IsMdxDoc(Get(db, MDX, key).value))
  }

  /** The loaded post's `isPublished`, as the submit handler reads it when editing. */
  function LoadedPublished(mode: Mode, currentPost: Option<Doc>): bool
  {
    mode == Edit && currentPost.Some? && Truthy(Lookup(currentPost.value, "isPublished"))
  }

  // ---------------------------------------------------------------------------------------------
  // The form component

  class Form {
    const mode: Mode
    /** The slug of the post being edited, from the route. */
    const paramUrl: Option<string>
    const editor: EditorComponent.Editor

    /** The loaded post: its meta and MDX documents merged. */
    var currentPost: Option<Doc>
    var error: string
    var isSubmitting: bool
    /** The route the form navigated to, if any. */
    var navigatedTo: Option<string>
    var featuredImage: string

    // The form's field values.
    var title: string
    var slug: string
    var author: string
    var isPublic: bool
    var mdxContent: string

    constructor (mode: Mode, paramUrl: Option<string>, editor: EditorComponent.Editor)
      ensures this.mode == mode && this.paramUrl == paramUrl && this.editor == editor
      ensures currentPost == None && error == "" && !isSubmitting && navigatedTo == None && featuredImage == ""
      ensures title == "" && slug == "" && author == "Shivam Kumar" && !isPublic && mdxContent == ""
    {
      this.mode := mode;
      this.paramUrl := paramUrl;
      this.editor := editor;
      currentPost := None;
      error := "";
      isSubmitting := false;
      navigatedTo := None;
      featuredImage := "";
      title := "";
      slug := "";
      author := "Shivam Kumar";
      isPublic := false;
      mdxContent := "";
    }

    /** The "Generate" button: the slug field becomes the slug of the title field. */
    method GenerateSlug()
      modifies this`slug
      ensures slug == Slugify(title)
    {
      slug := Slugify(title);
    }

    /** Whether the edit-mode effect fetches a post, and the key it fetches. */
    function LoadKey(): Option<string>
    {
      if mode == Edit && paramUrl.Some? && paramUrl.value != "" then paramUrl else None
    }

    /** The form's field values, the featured image and the editor's text. */
    function Fields(): (string, string, string, bool, string, string, string)
      reads this, editor
    {
      (title, slug, author, isPublic, mdxContent, featuredImage, editor.current)
    }

    /** Fills the form fields and the editor from a loaded record and its Markdown source. */
    method Fill(m: Meta, source: string)
      modifies this`title, this`slug, this`author, this`isPublic, this`mdxContent, this`featuredImage,
        editor`current, editor.instance
      ensures title == m.title && slug == m.slug && author == m.author && isPublic == m.isPublic
      ensures featuredImage == m.featuredImage && mdxContent == source
      ensures editor.current == source && editor.instance == old(editor.instance)
      ensures editor.instance != null ==>
        editor.instance.value == source && editor.instance.readOnly == old(editor.instance.readOnly)
    {
      title := m.title;
      slug := m.slug;
      author := m.author;
      isPublic := m.isPublic;
      mdxContent := source;
      editor.SetValue(source);
      featuredImage := m.featuredImage;
    }

    /**
     * The edit-mode effect: reads the post's meta and MDX documents and fills the form and the editor
     * from them. `readFault` makes the reads reject.
     */
    method LoadPost(store: Store, readFault: bool)
      requires LoadKey().Some? ==> PostTyped(store.db, LoadKey().value)
      modifies this`currentPost, this`error, this`featuredImage, this`title, this`slug, this`author,
        this`isPublic, this`mdxContent, editor`current, editor.instance
      ensures editor.instance == old(editor.instance)
      ensures editor.instance != null ==> editor.instance.readOnly == old(editor.instance.readOnly)
      ensures LoadKey().None? ==>
        && currentPost == old(currentPost) && error == old(error) && Fields() == old(Fields())
        && (editor.instance != null ==> editor.instance.value == old(editor.instance.value))
      ensures LoadKey().Some? && readFault ==>
        && error == "Failed to fetch post." && currentPost == old(currentPost) && Fields() == old(Fields())
        && (editor.instance != null ==> editor.instance.value == old(editor.instance.value))
      ensures LoadKey().Some? && !readFault ==>
        var key := LoadKey().value;
        var meta := Get(store.db, META, key);
        var mdx := Get(store.db, MDX, key);
        && (meta.None? || mdx.None? ==>
              && error == "Post not found." && currentPost == old(currentPost) && Fields() == old(Fields())
              && (editor.instance != null ==> editor.instance.value == old(editor.instance.value)))
        && (meta.Some? && mdx.Some? ==>
              var m := ParseMeta(meta.value);
              && m.Some?
              && currentPost == Some(meta.value + mdx.value) && error == old(error)
              && title == m.value.title && slug == m.value.slug && author == m.value.author
              && isPublic == m.value.isPublic && featuredImage == m.value.featuredImage
              && Some(Str(mdxContent)) == Lookup(mdx.value, "mdxContent")
              && editor.current == mdxContent
              && (editor.instance != null ==> editor.instance.value == mdxContent))
    {
      if LoadKey().None? {
        return;
      }
      if readFault {
        error := "Failed to fetch post.";
        return;
      }
      var key := LoadKey().value;
      var meta := Get(store.db, META, key);
      var mdx := Get(store.db, MDX, key);
      if meta.Some? && mdx.Some? {
        currentPost := Some(meta.value + mdx.value);
        assert IsMetaDoc(meta.value) && IsMdxDoc(mdx.value);
        Fill(ParseMeta(meta.value).value, mdx.value["mdxContent"].s);
      } else {
        error := "Post not found.";
      }
    }

    /** The first three awaited calls of the submit handler's `try` block, up to the first that rejects. */
    method IssueThree(store: Store, ws: seq<Write>, fault: nat -> Option<string>) returns (failed: Option<(nat, StoreError)>)
      requires 3 <= |ws|
      modifies store
      ensures Run(old(store.db), ws[..3], fault) == Outcome(store.db, failed)
    {
      ghost var db0 := store.db;
      assert ws[..0] == [];
      failed := store.Step(db0, ws, fault, 0, None);
      failed := store.Step(db0, ws, fault, 1, failed);
      failed := store.Step(db0, ws, fault, 2, failed);
    }

    /** The awaited calls of the submit handler's `try` block, in order, up to the first that rejects. */
    method Issue(store: Store, ws: seq<Write>, fault: nat -> Option<string>) returns (failed: Option<(nat, StoreError)>)
      requires |ws| == 3 || |ws| == 4
      modifies store
      ensures Run(old(store.db), ws, fault) == Outcome(store.db, failed)
    {
      ghost var db0 := store.db;
      failed := IssueThree(store, ws, fault);
      if |ws| == 4 {
        failed := store.Step(db0, ws, fault, 3, failed);
      }
      assert ws[..|ws|] == ws;
    }

    /**
     * `onSubmit` with the values the schema accepted: builds the meta record, then issues the writes one
     * after another. When editing before a post was loaded, reading its `isPublished` throws outside the
     * `try` block: nothing is written and the form stays submitting.
     */
    method OnSubmit(values: Schema.Content, store: Store, now: int, render: string -> string, fault: nat -> Option<string>)
      modifies this`isSubmitting, this`error, this`navigatedTo, store
      ensures mode == Edit && currentPost.None? ==>
        isSubmitting && store.db == old(store.db) && error == old(error) && navigatedTo == old(navigatedTo)
      ensures !(mode == Edit && currentPost.None?) ==>
        var m := SubmittedMeta(values, featuredImage, mode, LoadedPublished(mode, currentPost), now);
        var o := Run(old(store.db), SubmitWrites(mode, m, editor.current, RemoveLineBreaks(render(editor.current))), fault);
        && store.db == o.db && !isSubmitting
        && (o.failure.None? ==> navigatedTo == Some("/dashboard") && error == old(error))
        && (o.failure.Some? ==> navigatedTo == old(navigatedTo) && error == SubmitError(mode, o.failure.value.1))
    {
      isSubmitting := true;
      var source := editor.GetValue();
      var html := RemoveLineBreaks(render(source));
      var meta := Meta(featuredImage, values.title, values.slug, values.author, now, values.isPublic, false, None);
      if mode == Edit && currentPost.None? {
        return;
      }
      if mode == Create || (!Truthy(Lookup(currentPost.value, "isPublished")) && values.isPublic) {
        meta := meta.(isPublished := values.isPublic, publishedDate := Some(now));
      } else if mode == Edit && Truthy(Lookup(currentPost.value, "isPublished")) && values.isPublic {
        meta := meta.(isPublished := true);
      }
      assert meta == SubmittedMeta(values, featuredImage, mode, LoadedPublished(mode, currentPost), now);
      var ws := SubmitWrites(mode, meta, source, html);
      var failed := Issue(store, ws, fault);
      if failed.None? {
        navigatedTo := Some("/dashboard");
      } else {
        error := SubmitError(mode, failed.value.1);
      }
      isSubmitting := false;
    }
  }
}
