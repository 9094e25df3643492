/**
 * The dashboard: the listing of posts (a first page joined with the read counters, then further pages),
 * the total read count, the publish toggle, post deletion, and the short date format of the table.
 */
module Dashboard {
  import opened Base
  import opened Firestore
  import opened Posts

  // ---------------------------------------------------------------------------------------------
  // Rows

  /** A post as the listing holds it: its fields by name, with the document id under `id`. */
  type Row = map<string, Value>

  /** One document of a query result: its id and its fields. */
  type Snapshot = (string, Doc)

  /** Sets a field of an object literal; a value that is `undefined` leaves the field out. */
  function Put(r: Row, name: string, v: Option<Value>): Row
  {
    if v.Some? then r[name := v.value] else r - {name}
  }

  /** JavaScript `a || b` on field reads. */
  function Or(a: Option<Value>, b: Option<Value>): Option<Value>
  {
    if Truthy(a) then a else b
  }

  /** JavaScript `a ?? b` on field reads: `b` when `a` is `null` or `undefined`. */
  function Coalesce(a: Option<Value>, b: Option<Value>): Option<Value>
  {
    if a.Some? && !a.value.Null? then a else b
  }

  /** Whether a row is the post with this id (`post.id === postId`). */
  predicate HasId(r: Row, id: string)
  {
    Lookup(r, "id") == Some(Str(id))
  }

  /** `.find(...)` over a listing: the first document with this id. */
  function FindById(listing: seq<Snapshot>, id: string): (r: Option<Doc>)
    ensures r.Some? <==> exists i :: 0 <= i < |listing| && listing[i].0 == id
    ensures r.Some? ==> exists i :: 0 <= i < |listing| && listing[i] == (id, r.value)
                                   && forall j :: 0 <= j < i ==> listing[j].0 != id
  {
    if listing == [] then None
    else if listing[0].0 == id then Some(listing[0].1)
    else
      var r := FindById(listing[1..], id);
      assert forall i :: 0 <= i < |listing[1..]| ==> listing[1..][i] == listing[i + 1];
      if r.Some? then
        var i :| 0 <= i < |listing[1..]| && listing[1..][i] == (id, r.value)
                 && forall j :: 0 <= j < i ==> listing[1..][j].0 != id;
        assert listing[i + 1] == (id, r.value);
        r
      else r
  }

  /** A listing of a whole collection: every document once, with its stored fields. */
  ghost predicate Lists(listing: seq<Snapshot>, c: Collection)
  {
    && (forall i :: 0 <= i < |listing| ==> listing[i].0 in c && c[listing[i].0] == listing[i].1)
    && (forall k :: k in c ==> exists i :: 0 <= i < |listing| && listing[i].0 == k)
  }

  /** In a listing of a collection, finding a document by id is looking it up. */
  lemma FindByIdInListing(listing: seq<Snapshot>, c: Collection, id: string)
    requires Lists(listing, c)
    ensures FindById(listing, id) == if id in c then Some(c[id]) else None
  {
    var r := FindById(listing, id);
    if r.Some? {
      var i :| 0 <= i < |listing| && listing[i] == (id, r.value);
      assert c[listing[i].0] == listing[i].1;
    }
  }

  /** `x ? x.toDate() : null` on a stored field: `None` where the call throws (a truthy value that is not a timestamp). */
  function ToDate(v: Option<Value>): (r: Option<Value>)
    ensures r.Some? <==> !Truthy(v) || v.value.Time?
    ensures r.Some? ==> r.value == if Truthy(v) then v.value else Null
  {
    if !Truthy(v) then Some(Null)
    else if v.value.Time? then Some(v.value)
    else None
  }

  /** The `readCount` member of the found read-count document; `undefined` when there is none. */
  function ReadCountOf(found: Option<Doc>): Option<Value>
  {
    if found.Some? then Lookup(found.value, "readCount") else None
  }

  /**
   * A first-page row: the id, the read count of the read-count document with the same id, the meta
   * fields, and the dates converted. `None` when a conversion throws.
   */
  function JoinRow(s: Snapshot, readCounts: seq<Snapshot>): (r: Option<Row>)
    ensures r.Some? <==> ToDate(Lookup(s.1, "publishedDate")).Some? && ToDate(Lookup(s.1, "lastUpdated")).Some?
    ensures r.Some? ==>
      && Lookup(r.value, "publishedDate") == ToDate(Lookup(s.1, "publishedDate"))
      && Lookup(r.value, "lastUpdated") == ToDate(Lookup(s.1, "lastUpdated"))
      && (forall name :: name in s.1 && name != "publishedDate" && name != "lastUpdated" ==>
            Lookup(r.value, name) == Some(s.1[name]))
      && ("id" !in s.1 ==> Lookup(r.value, "id") == Some(Str(s.0)))
      && ("readCount" !in s.1 ==> Lookup(r.value, "readCount") == ReadCountOf(FindById(readCounts, s.0)))
      && s.1.Keys + {"id", "publishedDate", "lastUpdated"} <= r.value.Keys
      && r.value.Keys <= s.1.Keys + {"id", "readCount", "publishedDate", "lastUpdated"}
  {
    var data := s.1;
    var published := ToDate(Lookup(data, "publishedDate"));
    var updated := ToDate(Lookup(data, "lastUpdated"));
    if published.None? || updated.None? then None
    else
      var row := Put(map["id" := Str(s.0)], "readCount", ReadCountOf(FindById(readCounts, s.0))) + data;
      Some(row["publishedDate" := published.value]["lastUpdated" := updated.value])
  }

  /** `fetchMorePosts`' row: the id, the fields, and `publishedDate.toDate()`, which throws unless it is a timestamp. */
  function MoreRow(s: Snapshot): (r: Option<Row>)
    ensures r.Some? <==> Lookup(s.1, "publishedDate").Some? && Lookup(s.1, "publishedDate").value.Time?
    ensures r.Some? ==>
      && r.value.Keys == s.1.Keys + {"id"}
      && (forall name :: name in s.1 ==> r.value[name] == s.1[name])
      && ("id" !in s.1 ==> r.value["id"] == Str(s.0))
  {
    var v := Lookup(s.1, "publishedDate");
    if v.Some? && v.value.Time? then Some((map["id" := Str(s.0)] + s.1)["publishedDate" := v.value])
    else None
  }

  /** `docs.map(row)`: every row in order, or `None` if building any of them throws. */
  function MapRows(page: seq<Snapshot>, row: Snapshot -> Option<Row>): (r: Option<seq<Row>>)
    ensures r.Some? <==> forall i :: 0 <= i < |page| ==> row(page[i]).Some?
    ensures r.Some? ==> |r.value| == |page| && forall i :: 0 <= i < |page| ==> Some(r.value[i]) == row(page[i])
  {
    if page == [] then Some([])
    else
      var head := row(page[0]);
      var tail := MapRows(page[1..], row);
      assert forall i :: 0 <= i < |page[1..]| ==> page[1..][i] == page[i + 1];
      if head.None? || tail.None? then
        assert tail.None? ==> exists i :: 0 <= i < |page[1..]| && row(page[1..][i]).None?;
        None
      else Some([head.value] + tail.value)
  }

  function JoinRows(page: seq<Snapshot>, readCounts: seq<Snapshot>): Option<seq<Row>>
  {
    MapRows(page, s => JoinRow(s, readCounts))
  }

  function MoreRows(page: seq<Snapshot>): Option<seq<Row>>
  {
    MapRows(page, MoreRow)
  }

  /**
   * For a meta document as the writers leave it, joining never throws; the row holds the id, the read
   * count of the post's read-count document (absent when there is none), and every meta field unchanged.
   */
  lemma JoinRowOfMeta(s: Snapshot, readCounts: seq<Snapshot>, countDocs: Collection)
    requires IsMetaDoc(s.1) && "id" !in s.1 && "readCount" !in s.1
    requires Lists(readCounts, countDocs)
    ensures JoinRow(s, readCounts).Some?
    ensures var r := JoinRow(s, readCounts).value;
            && Lookup(r, "id") == Some(Str(s.0))
            && Lookup(r, "readCount") == (if s.0 in countDocs then Lookup(countDocs[s.0], "readCount") else None)
            && forall name :: name in s.1 ==> Lookup(r, name) == Some(s.1[name])
  {
    var data := s.1;
    assert FieldTyped("publishedDate", data["publishedDate"]) && FieldTyped("lastUpdated", data["lastUpdated"]);
    FindByIdInListing(readCounts, countDocs, s.0);
  }

  // ---------------------------------------------------------------------------------------------
  // Pages

  /** The cursor for the next page: not yet set, set to `null`, or the last document of a page. */
  datatype Cursor = Unset | NoDoc | At(id: string, doc: Doc)

  const FirstPageSize := 10
  const MorePageSize := 15

  /** The cursor after a page: its last document, or `null` for an empty page. */
  function LastOf(page: seq<Snapshot>): (c: Cursor)
    ensures c.At? <==> page != []
    ensures c.At? ==> page[|page| - 1] == (c.id, c.doc)
  {
    if page == [] then NoDoc else At(page[|page| - 1].0, page[|page| - 1].1)
  }

  /**
   * What an honest answer to the first-page query is: distinct meta documents, as many as the page size
   * allows (every meta document of a well-formed database has the `lastUpdated` the query orders by).
   */
  ghost predicate FirstPageOf(db: Db, page: seq<Snapshot>)
  {
    && (forall i :: 0 <= i < |page| ==> Get(db, META, page[i].0) == Some(page[i].1))
    && (forall i, j :: 0 <= i < j < |page| ==> page[i].0 != page[j].0)
    && |page| == Min(FirstPageSize, |Docs(db, META).Keys|)
  }

  /**
   * The first page offers more exactly when there are at least ten posts, so with exactly ten posts
   * it offers a page that will come back empty.
   */
  lemma FirstPageHasMore(db: Db, page: seq<Snapshot>)
    requires FirstPageOf(db, page)
    ensures |page| == FirstPageSize <==> |Docs(db, META).Keys| >= FirstPageSize
  {
  }

  // ---------------------------------------------------------------------------------------------
  // Publish toggle

  /**
   * The fields the toggle writes. A published post only changes visibility; an unpublished one is
   * made public and published, with its publication date.
   */
  function ToggleFields(isPublished: bool, currentStatus: bool, now: int): (f: Doc)
    ensures "isPublic" in f && "lastUpdated" in f && f["lastUpdated"] == Time(now)
    ensures isPublished ==> f.Keys == {"isPublic", "lastUpdated"} && f["isPublic"] == Bool(!currentStatus)
    ensures !isPublished ==>
      && f.Keys == {"isPublic", "isPublished", "publishedDate", "lastUpdated"}
      && f["isPublic"] == Bool(true) && f["isPublished"] == Bool(true) && f["publishedDate"] == Time(now)
  {
    if isPublished then map["isPublic" := Bool(!currentStatus), "lastUpdated" := Time(now)]
    else map["isPublic" := Bool(true), "isPublished" := Bool(true), "publishedDate" := Time(now), "lastUpdated" := Time(now)]
  }

  /**
   * The stored effect of a toggle: publication is a latch (a published post stays published, whatever
   * the row said) and the date of a post the row shows as published is kept; nothing but the written
   * fields changes.
   */
  lemma ToggleKeepsLatch(before: Doc, isPublished: bool, currentStatus: bool, now: int)
    ensures var after := before + ToggleFields(isPublished, currentStatus, now);
            && Lookup(after, "isPublic") == Some(Bool(if isPublished then !currentStatus else true))
            && Lookup(after, "lastUpdated") == Some(Time(now))
            && (Lookup(before, "isPublished") == Some(Bool(true)) ==> Lookup(after, "isPublished") == Some(Bool(true)))
            && (!isPublished ==> Lookup(after, "isPublished") == Some(Bool(true)) && Lookup(after, "publishedDate") == Some(Time(now)))
            && (isPublished ==>
                  Lookup(after, "isPublished") == Lookup(before, "isPublished")
                  && Lookup(after, "publishedDate") == Lookup(before, "publishedDate"))
            && forall name :: name !in {"isPublic", "isPublished", "publishedDate", "lastUpdated"} ==>
                 Lookup(after, name) == Lookup(before, name)
  {
  }

  /** The toggle only writes meta fields of their types, so meta documents stay full listing records. */
  lemma ToggleKeepsWellFormed(id: string, isPublished: bool, currentStatus: bool, now: int)
    ensures KeepsWellFormed(Update(META, id, ToggleFields(isPublished, currentStatus, now)))
  {
    var f := ToggleFields(isPublished, currentStatus, now);
    assert forall name :: name in f ==> FieldTyped(name, f[name]);
  }

  /**
   * The row after a toggle: visibility, last update and (for a post being published) the publication flag
   * from the written fields, and the row's own `publishedDate`, even when a date was written.
   */
  function ToggleRow(post: Row, isPublished: bool, currentStatus: bool, now: int): (r: Row)
    ensures r == post + (ToggleFields(isPublished, currentStatus, now) - {"publishedDate"})
  {
    var f := ToggleFields(isPublished, currentStatus, now);
    var withPublic := Put(post, "isPublic", Coalesce(Lookup(f, "isPublic"), Lookup(post, "isPublic")));
    var withDate := Put(withPublic, "publishedDate",
      if isPublished then Or(Lookup(f, "publishedDate"), Lookup(post, "publishedDate")) else Lookup(post, "publishedDate"));
    var withUpdated := Put(withDate, "lastUpdated", Or(Lookup(f, "lastUpdated"), Lookup(post, "lastUpdated")));
    var r := Put(withUpdated, "isPublished", Coalesce(Lookup(f, "isPublished"), Lookup(post, "isPublished")));
    assert r == post + (f - {"publishedDate"}) by {
      forall name | name in r ensures name in post + (f - {"publishedDate"}) && r[name] == (post + (f - {"publishedDate"}))[name] {
      }
      forall name | name in post + (f - {"publishedDate"}) ensures name in r {
      }
    }
    r
  }

  /** A toggled row keeps its id and its `publishedDate`, and shows published once it is toggled from unpublished. */
  lemma ToggleRowFields(post: Row, isPublished: bool, currentStatus: bool, now: int)
    ensures var r := ToggleRow(post, isPublished, currentStatus, now);
            && Lookup(r, "id") == Lookup(post, "id")
            && Lookup(r, "publishedDate") == Lookup(post, "publishedDate")
            && Lookup(r, "isPublic") == Some(Bool(if isPublished then !currentStatus else true))
            && Lookup(r, "isPublished") == if isPublished then Lookup(post, "isPublished") else Some(Bool(true))
  {
  }

  /** `prevPosts.map(...)`: the rows with the id are toggled, the others kept, the order and length unchanged. */
  function ToggleRows(posts: seq<Row>, id: string, isPublished: bool, currentStatus: bool, now: int): (r: seq<Row>)
    ensures |r| == |posts|
    ensures forall i :: 0 <= i < |posts| ==>
      r[i] == if HasId(posts[i], id) then ToggleRow(posts[i], isPublished, currentStatus, now) else posts[i]
  {
    seq(|posts|, i requires 0 <= i < |posts| =>
      if HasId(posts[i], id) then ToggleRow(posts[i], isPublished, currentStatus, now) else posts[i])
  }

  // ---------------------------------------------------------------------------------------------
  // Delete

  /** The collections a delete clears, in the order it clears them. */
  const DeleteOrder: seq<string> := [META, CONTENT, READS, MDX]

  function DeleteWrites(id: string): (ws: seq<Write>)
    ensures |ws| == 4 && forall i :: 0 <= i < 4 ==> ws[i] == Delete(DeleteOrder[i], id)
  {
    [Delete(META, id), Delete(CONTENT, id), Delete(READS, id), Delete(MDX, id)]
  }

  /**
   * A delete: the calls before the first faulted one removed their documents, the faulted call and the
   * later ones left theirs; nothing else changes. Only a fault stops a delete.
   */
  lemma DeleteOutcome(db: Db, id: string, fault: nat -> Option<string>)
    ensures var o := Run(db, DeleteWrites(id), fault);
            var k := Completed(o, 4);
            && k <= 4
            && (forall i :: 0 <= i < k ==> fault(i).None?)
            && (o.failure.Some? ==> fault(k).Some? && o.failure.value.1 == Failed(fault(k).value))
            && (forall i :: 0 <= i < 4 ==>
                  Get(o.db, DeleteOrder[i], id) == if i < k then None else Get(db, DeleteOrder[i], id))
            && (forall c, key :: key != id || c !in DeleteOrder ==> SameAt(o.db, db, c, key))
  {
    var ws := DeleteWrites(id);
    assert DistinctTargets(ws);
    RunDistinct(db, ws, fault);
    RunFrame(db, ws, fault);
    var o := Run(db, ws, fault);
    forall c, key | key != id || c !in DeleteOrder ensures SameAt(o.db, db, c, key) {
      assert (c, key) !in Targets(ws);
    }
  }

  /** Repeating a delete that stopped part-way, without faults, removes what it left. */
  lemma DeleteRetryCompletes(db: Db, id: string, fault: nat -> Option<string>, noFault: nat -> Option<string>)
    requires forall i :: noFault(i).None?
    ensures var db' := Run(Run(db, DeleteWrites(id), fault).db, DeleteWrites(id), noFault).db;
            && Run(Run(db, DeleteWrites(id), fault).db, DeleteWrites(id), noFault).failure.None?
            && (forall c :: c in DeleteOrder ==> Get(db', c, id).None?)
            && (forall c, key :: key != id || c !in DeleteOrder ==> SameAt(db', db, c, key))
  {
    var mid := Run(db, DeleteWrites(id), fault).db;
    DeleteOutcome(db, id, fault);
    DeleteOutcome(mid, id, noFault);
    var db' := Run(mid, DeleteWrites(id), noFault).db;
    forall c | c in DeleteOrder ensures Get(db', c, id).None? {
      var i :| 0 <= i < 4 && DeleteOrder[i] == c;
    }
    forall c, key | key != id || c !in DeleteOrder ensures SameAt(db', db, c, key) {
      assert SameAt(db', mid, c, key) && SameAt(mid, db, c, key);
    }
  }

  /** A completed delete removes the post's read counter and no other. */
  lemma DeleteClearsReadCount(db: Db, id: string, fault: nat -> Option<string>)
    requires Run(db, DeleteWrites(id), fault).failure.None?
    ensures Docs(Run(db, DeleteWrites(id), fault).db, READS) == Docs(db, READS) - {id}
  {
    var ws := DeleteWrites(id);
    var db' := Run(db, ws, fault).db;
    assert DistinctTargets(ws);
    RunDistinct(db, ws, fault);
    RunFrame(db, ws, fault);
    assert Get(db', ws[2].collection, ws[2].key) == After(db, ws[2]);
    assert Get(db', READS, id).None?;
    var a := Docs(db', READS);
    var b := Docs(db, READS) - {id};
    forall key | key in a || key in b
      ensures key in a <==> key in b
      ensures key in a ==> a[key] == b[key]
    {
      if key != id {
        assert (READS, key) !in Targets(ws);
        assert Get(db', READS, key) == Get(db, READS, key);
      }
    }
    assert a == b;
  }

  /** A completed delete lowers the total read count by the post's count. */
  lemma DeleteLowersTotalReads(db: Db, id: string, fault: nat -> Option<string>)
    requires Run(db, DeleteWrites(id), fault).failure.None?
    ensures FieldSum(Docs(Run(db, DeleteWrites(id), fault).db, READS), "readCount")
         == FieldSum(Docs(db, READS), "readCount") - (if id in Docs(db, READS) then NumberIn(Docs(db, READS)[id], "readCount") else 0)
  {
    DeleteClearsReadCount(db, id, fault);
    var before := Docs(db, READS);
    if id in before {
      FieldSumRemove(before, "readCount", id);
    } else {
      assert before - {id} == before;
    }
  }

  /** `prevPosts.filter(post => post.id !== postId)`. */
  function WithoutPost(posts: seq<Row>, id: string): (r: seq<Row>)
    ensures |r| <= |posts|
    ensures forall x :: x in r ==> x in posts && !HasId(x, id)
  {
    Filter(posts, x => !HasId(x, id))
  }

  /** Removing a post drops exactly its rows: no row with the id is left, every other row keeps its count. */
  lemma WithoutPostDropsOnlyIt(posts: seq<Row>, id: string, r: Row)
    ensures forall x :: x in WithoutPost(posts, id) ==> !HasId(x, id)
    ensures multiset(WithoutPost(posts, id))[r] == if HasId(r, id) then 0 else multiset(posts)[r]
  {
    FilterCount(posts, x => !HasId(x, id), r);
  }

  // ---------------------------------------------------------------------------------------------
  // Short date format

  function Digit(n: int): char
    requires 0 <= n < 10
  {
    "0123456789"[n]
  }

  /** `String(n)` for an integer. */
  function DecimalString(n: int): (s: string)
    ensures s != [] && (s[0] == '-' <==> n < 0)
    ensures forall i :: (if n < 0 then 1 else 0) <= i < |s| ==> '0' <= s[i] <= '9'
  {
    if n < 0 then "-" + NaturalString(-n) else NaturalString(n)
  }

  function NaturalString(n: nat): (s: string)
    ensures s != [] && s[|s| - 1] == Digit(n % 10)
    ensures n < 10 <==> |s| == 1
    ensures forall i :: 0 <= i < |s| ==> '0' <= s[i] <= '9'
  {
    if n < 10 then [Digit(n)] else NaturalString(n / 10) + [Digit(n % 10)]
  }

  /** `padStart(2, "0")`. */
  function PadStart2(s: string): (r: string)
    ensures |r| == if |s| >= 2 then |s| else 2
    ensures r[|r| - |s|..] == s
    ensures forall i :: 0 <= i < |r| - |s| ==> r[i] == '0'
  {
    if |s| >= 2 then s else seq(2 - |s|, _ => '0') + s
  }

  /** `slice(-2)`: the last two characters, or the whole string when it is shorter. */
  function LastTwo(s: string): (r: string)
    ensures |r| == Min(2, |s|)
    ensures r == s[|s| - |r|..]
  {
    if |s| >= 2 then s[|s| - 2..] else s
  }

  const MonthNames: seq<string> := ["Jan", "Feb", "Mar", "Apr", "May", "Jun", "Jul", "Aug", "Sep", "Oct", "Nov", "Dec"]

  /** `monthNames[m]`, which is `undefined` (and prints so) outside the table. */
  function MonthName(m: int): (r: string)
    ensures 0 <= m < 12 ==> |r| == 3 && r == MonthNames[m]
    ensures !(0 <= m < 12) ==> r == "undefined"
  {
    if 0 <= m < |MonthNames| then MonthNames[m] else "undefined"
  }

  /**
   * `formatDateShort`, on the date's local components (`month` counted from 0) and the current year. Both
   * branches of its year test build the same text.
   */
  function FormatDateShort(day: int, month: int, year: int, hours: int, minutes: int, nowYear: int): (r: string)
    ensures |r| >= 17
  {
    var d := PadStart2(DecimalString(day));
    var mo := MonthName(month);
    var y := LastTwo(DecimalString(year));
    var h := PadStart2(DecimalString(hours));
    var mi := PadStart2(DecimalString(minutes));
    if year != nowYear then d + " " + mo + ", " + y + " - " + h + ":" + mi
    else d + " " + mo + ", " + y + " - " + h + ":" + mi
  }

  /** The last two decimal digits of a number; for a number below 100, the number padded to two digits. */
  function TwoDigits(n: nat): string
  {
    [Digit((n / 10) % 10), Digit(n % 10)]
  }

  lemma PadStart2Digits(n: int)
    requires 0 <= n < 100
    ensures PadStart2(DecimalString(n)) == TwoDigits(n)
  {
    var t := DecimalString(n);
    if n >= 10 {
      assert t == NaturalString(n / 10) + [Digit(n % 10)];
      assert NaturalString(n / 10) == [Digit(n / 10)];
      assert PadStart2(t) == t;
    } else {
      assert t == [Digit(n)];
      assert PadStart2(t) == ['0'] + t;
    }
  }

  lemma LastTwoDigits(n: int)
    requires n >= 10
    ensures LastTwo(DecimalString(n)) == TwoDigits(n)
  {
    var p := NaturalString(n / 10);
    assert NaturalString(n) == p + [Digit(n % 10)];
    assert p[|p| - 1] == Digit((n / 10) % 10);
  }

  /** The output never depends on the current year. */
  lemma FormatDateShortIgnoresNow(day: int, month: int, year: int, hours: int, minutes: int, nowYear: int, otherYear: int)
    ensures FormatDateShort(day, month, year, hours, minutes, nowYear) == FormatDateShort(day, month, year, hours, minutes, otherYear)
  {
  }

  /**
   * For a real date and time, the text is the two-digit day, the month's short name, the last two digits
   * of the year, and the two-digit hours and minutes, in the form `DD Mon, YY - HH:MM`.
   */
  lemma FormatDateShortFields(day: int, month: int, year: int, hours: int, minutes: int, nowYear: int)
    requires 1 <= day <= 31 && 0 <= month < 12 && year >= 10 && 0 <= hours < 24 && 0 <= minutes < 60
    ensures FormatDateShort(day, month, year, hours, minutes, nowYear)
         == TwoDigits(day) + " " + MonthNames[month] + ", " + TwoDigits(year) + " - " + TwoDigits(hours) + ":" + TwoDigits(minutes)
    ensures |FormatDateShort(day, month, year, hours, minutes, nowYear)| == 18
  {
    PadStart2Digits(day);
    PadStart2Digits(hours);
    PadStart2Digits(minutes);
    LastTwoDigits(year);
  }

  // ---------------------------------------------------------------------------------------------
  // The dashboard component

  class Page {
    var posts: seq<Row>
    var fetching: bool
    var hasMore: bool
    var lastDoc: Cursor
    var totalReads: int

    constructor ()
      ensures posts == [] && fetching && hasMore && lastDoc == Unset && totalReads == 0
    {
      posts := [];
      fetching := true;
      hasMore := true;
      lastDoc := Unset;
      totalReads := 0;
    }

    /**
     * The total-reads effect: the server-side sum of `readCount` over the read-count collection. A rejected
     * aggregate query is not caught and leaves the total as it was.
     */
    method UpdateTotalReads(store: Store, fault: Option<string>)
      modifies this`totalReads
      ensures fault.None? ==> totalReads == FieldSum(Docs(store.db, READS), "readCount")
      ensures fault.Some? ==> totalReads == old(totalReads)
    {
      if fault.Some? {
        return;
      }
      var total := store.SumField(READS, "readCount");
      totalReads := total;
    }

    /**
     * `fetchPosts`: the first page by `lastUpdated`, joined with the whole read-count listing. `page` and
     * `reads` are what the two queries return (or the error they reject with). On any failure, including
     * a date conversion that throws, only `fetching` changes.
     */
    method FetchPosts(page: Result<seq<Snapshot>, string>, readCounts: Result<seq<Snapshot>, string>)
      modifies this`posts, this`fetching, this`hasMore, this`lastDoc
      ensures !fetching
      ensures page.Ok? && readCounts.Ok? && JoinRows(page.value, readCounts.value).Some? ==>
        && posts == JoinRows(page.value, readCounts.value).value
        && hasMore == (|page.value| == FirstPageSize)
        && lastDoc == LastOf(page.value)
      ensures !(page.Ok? && readCounts.Ok? && JoinRows(page.value, readCounts.value).Some?) ==>
        posts == old(posts) && hasMore == old(hasMore) && lastDoc == old(lastDoc)
    {
      fetching := true;
      if page.Ok? && readCounts.Ok? {
        var rows := JoinRows(page.value, readCounts.value);
        if rows.Some? {
          posts := rows.value;
          hasMore := |rows.value| == FirstPageSize;
          lastDoc := if |rows.value| > 0 then At(page.value[|page.value| - 1].0, page.value[|page.value| - 1].1) else NoDoc;
        }
      }
      fetching := false;
    }

    /**
     * `fetchMorePosts`: the next page by `publishedDate`, appended to the list. It has no `catch`: a
     * rejected query or a `publishedDate` that is not a timestamp leaves `fetching` set and nothing else changed.
     */
    method FetchMorePosts(page: Result<seq<Snapshot>, string>)
      modifies this`posts, this`fetching, this`hasMore, this`lastDoc
      ensures page.Ok? && MoreRows(page.value).Some? ==>
        && posts == old(posts) + MoreRows(page.value).value
        && hasMore == (old(hasMore) && |page.value| >= MorePageSize)
        && lastDoc == (if page.value != [] then LastOf(page.value) else old(lastDoc))
        && !fetching
      ensures !(page.Ok? && MoreRows(page.value).Some?) ==>
        posts == old(posts) && hasMore == old(hasMore) && lastDoc == old(lastDoc) && fetching
    {
      fetching := true;
      if page.Err? {
        return;
      }
      var rows := MoreRows(page.value);
      if rows.None? {
        return;
      }
      if |page.value| < MorePageSize {
        hasMore := false;
      }
      if |page.value| > 0 {
        lastDoc := At(page.value[|page.value| - 1].0, page.value[|page.value| - 1].1);
      }
      posts := posts + rows.value;
      fetching := false;
    }

    /**
     * `handlePostPublishToggle`: one `updateDoc` of the meta document; when it goes through, the matching
     * rows are toggled. A rejected update (a fault, or no such document) changes nothing.
     */
    method TogglePublish(store: Store, postId: string, currentStatus: bool, isPublished: bool, now: int, fault: Option<string>)
      modifies this`posts, store
      ensures var w := Update(META, postId, ToggleFields(isPublished, currentStatus, now));
        && (Apply(old(store.db), w, fault).Ok? ==>
              store.db == Apply(old(store.db), w, fault).value
              && posts == ToggleRows(old(posts), postId, isPublished, currentStatus, now))
        && (Apply(old(store.db), w, fault).Err? ==> store.db == old(store.db) && posts == old(posts))
    {
      var f := ToggleFields(isPublished, currentStatus, now);
      var err := store.Commit(Update(META, postId, f), fault);
      if err.None? {
        posts := ToggleRows(posts, postId, isPublished, currentStatus, now);
      }
    }

    /**
     * `handleDeletePost`: the four deletes in order, then the rows with the id leave the list. When a
     * delete rejects, the later ones are not issued, the earlier ones stay done and the list is unchanged.
     */
    method DeletePost(store: Store, postId: string, fault: nat -> Option<string>)
      modifies this`posts, store
      ensures var o := Run(old(store.db), DeleteWrites(postId), fault);
        && store.db == o.db
        && posts == if o.failure.None? then WithoutPost(old(posts), postId) else old(posts)
    {
      var ws := DeleteWrites(postId);
      ghost var db0 := store.db;
      var failed: Option<(nat, StoreError)> := None;
      assert ws[..0] == [];
      failed := store.Step(db0, ws, fault, 0, failed);
      failed := store.Step(db0, ws, fault, 1, failed);
      failed := store.Step(db0, ws, fault, 2, failed);
      failed := store.Step(db0, ws, fault, 3, failed);
      assert ws[..4] == ws;
      if failed.None? {
        posts := WithoutPost(posts, postId);
      }
    }
  }
}
