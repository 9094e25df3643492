/**
 * The shape of a post's documents. A post is stored under its slug in four collections: its listing
 * record (meta), its editable Markdown source with the rendered HTML (MDX), the rendered HTML alone
 * (content) and its read counter.
 */
module Posts {
  import opened Base
  import opened Firestore

  /** The listing record written to the meta collection. Dates are timestamps; `None` is a stored `null`. */
  datatype Meta = Meta(
    featuredImage: string,
    title: string,
    slug: string,
    author: string,
    lastUpdated: int,
    isPublic: bool,
    isPublished: bool,
    publishedDate: Option<int>)

  function DateValue(d: Option<int>): Value
  {
    if d.Some? then Time(d.value) else Null
  }

  function MetaDoc(m: Meta): Doc
  {
    map[
      "featuredImage" := Str(m.featuredImage),
      "title" := Str(m.title),
      "slug" := Str(m.slug),
      "author" := Str(m.author),
      "lastUpdated" := Time(m.lastUpdated),
      "isPublic" := Bool(m.isPublic),
      "isPublished" := Bool(m.isPublished),
      "publishedDate" := DateValue(m.publishedDate)]
  }

  const MetaFields: set<string> :=
    {"featuredImage", "title", "slug", "author", "lastUpdated", "isPublic", "isPublished", "publishedDate"}

  /** The type each meta field has when this program writes it; other field names are unconstrained. */
  predicate FieldTyped(name: string, v: Value)
  {
    if name in {"featuredImage", "title", "slug", "author"} then v.Str?
    else if name in {"isPublic", "isPublished"} then v.Bool?
    else if name == "lastUpdated" then v.Time?
    else if name == "publishedDate" then v.Time? || v.Null?
    else true
  }

  predicate MetaFieldsTyped(f: Doc)
  {
    forall name :: name in f ==> FieldTyped(name, f[name])
  }

  /** A meta document as the writers leave it: all eight fields, each of its type. */
  predicate IsMetaDoc(d: Doc)
  {
    MetaFields <= d.Keys && MetaFieldsTyped(d)
  }

  /** Reads a listing record back from a meta document. */
  function ParseMeta(d: Doc): (r: Option<Meta>)
    ensures r.Some? <==> IsMetaDoc(d)
  {
    if !IsMetaDoc(d) then None
    else
      assert FieldTyped("title", d["title"]) && FieldTyped("slug", d["slug"]);
      assert FieldTyped("author", d["author"]) && FieldTyped("featuredImage", d["featuredImage"]);
      assert FieldTyped("lastUpdated", d["lastUpdated"]) && FieldTyped("publishedDate", d["publishedDate"]);
      assert FieldTyped("isPublic", d["isPublic"]) && FieldTyped("isPublished", d["isPublished"]);
      Some(Meta(
        d["featuredImage"].s, d["title"].s, d["slug"].s, d["author"].s, d["lastUpdated"].t,
        d["isPublic"].b, d["isPublished"].b,
        if d["publishedDate"].Time? then Some(d["publishedDate"].t) else None))
  }

  /**
   * Writing a record and reading it back gives the record, whether it overwrote the document (`set`,
   * `prior` empty) or was merged into an existing one (`update`).
   */
  lemma ParseMetaDoc(m: Meta, prior: Doc)
    ensures IsMetaDoc(MetaDoc(m))
    ensures ParseMeta(prior + MetaDoc(m)) == Some(m)
    ensures ParseMeta(MetaDoc(m)) == Some(m)
  {
    var d := prior + MetaDoc(m);
    assert MetaFieldsTyped(MetaDoc(m));
    assert MetaFieldsTyped(d) by {
      forall name | name in d ensures FieldTyped(name, d[name]) {
        if name !in MetaDoc(m) {
          assert name !in MetaFields;
        }
      }
    }
    assert map[] + MetaDoc(m) == MetaDoc(m);
  }

  predicate IsMdxDoc(d: Doc)
  {
    "mdxContent" in d && d["mdxContent"].Str?
  }

  /** Every meta document is a full listing record and every MDX document holds its Markdown source. */
  ghost predicate WellFormed(db: Db)
  {
    && (forall k :: k in Docs(db, META) ==> IsMetaDoc(Docs(db, META)[k]))
    && (forall k :: k in Docs(db, MDX) ==> IsMdxDoc(Docs(db, MDX)[k]))
  }

  /** A call that can only leave meta and MDX documents of the right shape. */
  predicate KeepsWellFormed(w: Write)
  {
    match w
    case Set(c, _, d) => (c == META ==> IsMetaDoc(d)) && (c == MDX ==> IsMdxDoc(d))
    case Update(c, _, f) =>
      && (c == META ==> MetaFieldsTyped(f))
      && (c == MDX ==> ("mdxContent" in f ==> f["mdxContent"].Str?))
    case Delete(_, _) => true
  }

  lemma ApplyKeepsWellFormed(db: Db, w: Write, fault: Option<string>)
    requires WellFormed(db) && KeepsWellFormed(w)
    ensures Apply(db, w, fault).Ok? ==> WellFormed(Apply(db, w, fault).value)
  {
    var r := Apply(db, w, fault);
    if r.Ok? {
      var db' := r.value;
      forall k | k in Docs(db', META) ensures IsMetaDoc(Docs(db', META)[k]) {
        assert Get(db', META, k).Some?;
        if (META, k) != Target(w) {
          assert Get(db', META, k) == Get(db, META, k);
        } else if w.Update? {
          var old_ := Docs(db, META)[k];
          var d := old_ + w.fields;
          assert Docs(db', META)[k] == d;
          forall name | name in d ensures FieldTyped(name, d[name]) {
            if name in w.fields {
              assert FieldTyped(name, w.fields[name]);
            } else {
              assert FieldTyped(name, old_[name]);
            }
          }
        }
      }
      forall k | k in Docs(db', MDX) ensures IsMdxDoc(Docs(db', MDX)[k]) {
        assert Get(db', MDX, k).Some?;
        if (MDX, k) != Target(w) {
          assert Get(db', MDX, k) == Get(db, MDX, k);
        }
      }
    }
  }

  /** A fan-out made only of shape-keeping calls keeps the database well formed, however far it gets. */
  lemma {:induction false} RunKeepsWellFormed(db: Db, ws: seq<Write>, fault: nat -> Option<string>)
    requires WellFormed(db)
    requires forall i :: 0 <= i < |ws| ==> KeepsWellFormed(ws[i])
    ensures WellFormed(Run(db, ws, fault).db)
    decreases |ws|
  {
    if ws != [] {
      var n := |ws| - 1;
      RunKeepsWellFormed(db, ws[..n], fault);
      ApplyKeepsWellFormed(Run(db, ws[..n], fault).db, ws[n], fault(n));
    }
  }
}
