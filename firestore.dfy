/**
 * The document store the admin pages talk to, reduced to what they rely on: named collections of
 * documents keyed by id, where `set` overwrites, `update` merges fields into an existing document and
 * fails when there is none, and `delete` removes (and succeeds on an absent document). Every call may
 * also fail for reasons outside the program (network, permissions); a fault oracle says which ones do.
 */
module Firestore {
  import opened Base

  /** A stored field value. Dates are stored as Firestore timestamps, here whole milliseconds. */
  datatype Value = Null | Bool(b: bool) | Int(i: int) | Str(s: string) | Time(t: int)

  type Doc = map<string, Value>
  type Collection = map<string, Doc>
  type Db = map<string, Collection>

  const META := "blogMetaCollection"
  const MDX := "blogMDXContentCollection"
  const CONTENT := "blogContentCollection"
  const READS := "blogReadCountCollection"

  /** Reading `doc.field` in JavaScript: an absent field reads as `undefined` (`None`). */
  function Lookup(d: Doc, field: string): Option<Value>
  {
    if field in d then Some(d[field]) else None
  }

  /** JavaScript truthiness of a field read; a timestamp is an object and so always truthy. */
  predicate Truthy(v: Option<Value>)
  {
    match v
    case None => false
    case Some(Null) => false
    case Some(Bool(b)) => b
    case Some(Int(i)) => i != 0
    case Some(Str(s)) => s != ""
    case Some(Time(_)) => true
  }

  function Docs(db: Db, c: string): Collection
  {
    if c in db then db[c] else map[]
  }

  function Get(db: Db, c: string, k: string): Option<Doc>
  {
    if k in Docs(db, c) then Some(Docs(db, c)[k]) else None
  }

  datatype StoreError =
    | NotFound(collection: string, key: string)  // `updateDoc` on a document that does not exist
    | Failed(message: string)                    // any other rejected call

  /** The `message` of the error the SDK rejects with (the project path in a not-found message is left out). */
  function Message(e: StoreError): string
  {
    match e
    case NotFound(c, k) => "No document to update: " + c + "/" + k
    case Failed(m) => m
  }

  /** One call of `setDoc`, `updateDoc` or `deleteDoc` on the document `collection/key`. */
  datatype Write =
    | Set(collection: string, key: string, doc: Doc)
    | Update(collection: string, key: string, fields: Doc)
    | Delete(collection: string, key: string)

  function Target(w: Write): (string, string)
  {
    (w.collection, w.key)
  }

  /** Whether the call succeeds: it is not faulted, and an update finds its document. */
  predicate Succeeds(db: Db, w: Write, fault: Option<string>)
  {
    fault.None? && (w.Update? ==> Get(db, w.collection, w.key).Some?)
  }

  /** What the target document is after a successful call. */
  function After(db: Db, w: Write): Option<Doc>
  {
    match w
    case Set(_, _, d) => Some(d)
    case Update(c, k, fields) => if Get(db, c, k).Some? then Some(Get(db, c, k).value + fields) else None
    case Delete(_, _) => None
  }

  /** Performs one call against the store. */
  function Apply(db: Db, w: Write, fault: Option<string>): (r: Result<Db, StoreError>)
    ensures r.Ok? <==> Succeeds(db, w, fault)
    ensures fault.Some? ==> r == Err(Failed(fault.value))
    ensures fault.None? && r.Err? ==> r.error == NotFound(w.collection, w.key)
    ensures r.Ok? ==> Get(r.value, w.collection, w.key) == After(db, w)
    ensures r.Ok? ==> forall c, k :: (c, k) != Target(w) ==> Get(r.value, c, k) == Get(db, c, k)
  {
    if fault.Some? then Err(Failed(fault.value))
    else
      match w
      case Set(c, k, d) => Ok(db[c := Docs(db, c)[k := d]])
      case Update(c, k, fields) =>
        if k in Docs(db, c) then Ok(db[c := Docs(db, c)[k := Docs(db, c)[k] + fields]])
        else Err(NotFound(c, k))
      case Delete(c, k) => Ok(db[c := Docs(db, c) - {k}])
  }

  /** Whether two databases hold the same document (or none) at `c/k`. */
  predicate SameAt(db: Db, db': Db, c: string, k: string)
  {
    Get(db, c, k) == Get(db', c, k)
  }

  /** A call only looks at its own target, so it behaves the same on databases that agree there. */
  lemma ApplyIsLocal(db: Db, db': Db, w: Write, fault: Option<string>)
    requires SameAt(db, db', w.collection, w.key)
    ensures Apply(db, w, fault).Ok? == Apply(db', w, fault).Ok?
    ensures Apply(db, w, fault).Err? ==> Apply(db, w, fault) == Apply(db', w, fault)
    ensures After(db, w) == After(db', w)
  {
  }

  /** The state after an awaited sequence of calls, and the failing step with its error if one failed. */
  datatype Outcome = Outcome(db: Db, failure: Option<(nat, StoreError)>)

  /** Number of steps that took effect. */
  function Completed(o: Outcome, n: nat): nat
  {
    if o.failure.Some? then o.failure.value.0 else n
  }

  function Targets(ws: seq<Write>): set<(string, string)>
  {
    set i | 0 <= i < |ws| :: Target(ws[i])
  }

  /**
   * Issues the calls of `ws` one after another, each awaited before the next; call `i` is faulted when
   * `fault(i)` holds a message. The first failure ends the sequence and nothing is rolled back.
   */
  function Run(db: Db, ws: seq<Write>, fault: nat -> Option<string>): (o: Outcome)
    ensures o.failure.Some? ==> o.failure.value.0 < |ws|
    decreases |ws|
  {
    if ws == [] then Outcome(db, None)
    else
      var n := |ws| - 1;
      var prev := Run(db, ws[..n], fault);
      if prev.failure.Some? then prev
      else
        match Apply(prev.db, ws[n], fault(n))
        case Ok(d) => Outcome(d, None)
        case Err(e) => Outcome(prev.db, Some((n, e)))
  }

  /** A sequence of calls touches no document outside its targets, however it ends. */
  lemma {:induction false} RunFrame(db: Db, ws: seq<Write>, fault: nat -> Option<string>)
    ensures forall c, k :: (c, k) !in Targets(ws) ==> Get(Run(db, ws, fault).db, c, k) == Get(db, c, k)
    decreases |ws|
  {
    if ws != [] {
      var n := |ws| - 1;
      RunFrame(db, ws[..n], fault);
      assert Targets(ws[..n]) <= Targets(ws) by {
        forall t | t in Targets(ws[..n]) ensures t in Targets(ws) {
          var i :| 0 <= i < n && Target(ws[..n][i]) == t;
          assert Target(ws[i]) == t;
        }
      }
      assert Target(ws[n]) in Targets(ws);
    }
  }

  /** No two calls of the sequence address the same document. */
  predicate DistinctTargets(ws: seq<Write>)
  {
    forall i, j :: 0 <= i < j < |ws| ==> Target(ws[i]) != Target(ws[j])
  }

  /**
   * What `RunDistinct` says about the outcome `o` of the first `n` calls: `k` calls took effect, each as it
   * would on the initial state, the failing one (if any) fails there too, and the rest are untouched.
   */
  ghost predicate Pictured(db: Db, ws: seq<Write>, fault: nat -> Option<string>, n: nat, o: Outcome)
    requires n <= |ws|
  {
    var k := Completed(o, n);
    && k <= n
    && (o.failure.Some? ==> k < n && Apply(db, ws[k], fault(k)) == Err(o.failure.value.1))
    && (forall i :: 0 <= i < k ==> Succeeds(db, ws[i], fault(i)))
    && (forall i :: 0 <= i < k ==> Get(o.db, ws[i].collection, ws[i].key) == After(db, ws[i]))
    && (forall i :: k <= i < |ws| ==> SameAt(o.db, db, ws[i].collection, ws[i].key))
  }

  /** After a failure, the next call is skipped and the picture stays. */
  lemma PicturedAfterFailure(db: Db, ws: seq<Write>, fault: nat -> Option<string>, m: nat, prev: Outcome)
    requires m < |ws| && prev.failure.Some? && Pictured(db, ws, fault, m, prev)
    ensures Pictured(db, ws, fault, m + 1, prev)
  {
  }

  /** A call that fails on the state reached fails on the initial state too. */
  lemma PicturedFailingStep(db: Db, ws: seq<Write>, fault: nat -> Option<string>, m: nat, prev: Outcome, e: StoreError)
    requires m < |ws| && prev.failure.None? && Pictured(db, ws, fault, m, prev)
    requires Apply(prev.db, ws[m], fault(m)) == Err(e)
    ensures Pictured(db, ws, fault, m + 1, Outcome(prev.db, Some((m, e))))
  {
    ApplyIsLocal(prev.db, db, ws[m], fault(m));
  }

  /** A call that succeeds extends the calls that took effect by one. */
  lemma PicturedSucceedingStep(db: Db, ws: seq<Write>, fault: nat -> Option<string>, m: nat, prev: Outcome, d: Db)
    requires DistinctTargets(ws)
    requires m < |ws| && prev.failure.None? && Pictured(db, ws, fault, m, prev)
    requires Apply(prev.db, ws[m], fault(m)) == Ok(d)
    ensures Pictured(db, ws, fault, m + 1, Outcome(d, None))
  {
    ApplyIsLocal(prev.db, db, ws[m], fault(m));
    SucceedingStep(db, prev.db, d, ws, m, fault(m));
  }

  /** `RunDistinct` for the first `n` calls, stated with indices into the whole sequence. */
  lemma {:induction false} RunDistinctPrefix(db: Db, ws: seq<Write>, fault: nat -> Option<string>, n: nat)
    requires DistinctTargets(ws) && n <= |ws|
    ensures Pictured(db, ws, fault, n, Run(db, ws[..n], fault))
  {
    if n == 0 {
      assert ws[..0] == [];
    } else {
      var m := n - 1;
      RunDistinctPrefix(db, ws, fault, m);
      var prev := Run(db, ws[..m], fault);
      assert ws[..n][..m] == ws[..m] && ws[..n][m] == ws[m];
      if prev.failure.Some? {
        PicturedAfterFailure(db, ws, fault, m, prev);
      } else {
        match Apply(prev.db, ws[m], fault(m))
        case Ok(d) =>
          PicturedSucceedingStep(db, ws, fault, m, prev, d);
        case Err(e) =>
          PicturedFailingStep(db, ws, fault, m, prev, e);
      }
    }
  }

  /** One more successful call on distinct documents keeps the others as they were. */
  lemma SucceedingStep(db: Db, prev: Db, d: Db, ws: seq<Write>, m: nat, fault: Option<string>)
    requires DistinctTargets(ws) && m < |ws|
    requires Apply(prev, ws[m], fault) == Ok(d)
    requires SameAt(prev, db, ws[m].collection, ws[m].key)
    requires forall i :: 0 <= i < m ==> Get(prev, ws[i].collection, ws[i].key) == After(db, ws[i])
    requires forall i :: m <= i < |ws| ==> SameAt(prev, db, ws[i].collection, ws[i].key)
    ensures forall i :: 0 <= i <= m ==> Get(d, ws[i].collection, ws[i].key) == After(db, ws[i])
    ensures forall i :: m < i < |ws| ==> SameAt(d, db, ws[i].collection, ws[i].key)
  {
    ApplyIsLocal(prev, db, ws[m], fault);
    forall i | 0 <= i < m
      ensures Get(d, ws[i].collection, ws[i].key) == After(db, ws[i])
    {
      assert Target(ws[i]) != Target(ws[m]);
    }
    forall i | m < i < |ws|
      ensures SameAt(d, db, ws[i].collection, ws[i].key)
    {
      assert Target(ws[i]) != Target(ws[m]);
    }
  }

  /**
   * For calls on distinct documents: the steps before the first failing one all took effect (each as it
   * would on the initial state), the failing step and every later one left their documents as they were.
   */
  lemma RunDistinct(db: Db, ws: seq<Write>, fault: nat -> Option<string>)
    requires DistinctTargets(ws)
    ensures var o := Run(db, ws, fault);
            var k := Completed(o, |ws|);
            && k <= |ws|
            && (forall i :: 0 <= i < k ==> Succeeds(db, ws[i], fault(i)))
            && (o.failure.Some? ==> Apply(db, ws[k], fault(k)) == Err(o.failure.value.1))
            && (forall i :: 0 <= i < k ==> Get(o.db, ws[i].collection, ws[i].key) == After(db, ws[i]))
            && (forall i :: k <= i < |ws| ==> SameAt(o.db, db, ws[i].collection, ws[i].key))
  {
    RunDistinctPrefix(db, ws, fault, |ws|);
    assert ws[..|ws|] == ws;
  }

  /** The Firestore database the handlers read and write. */
  class Store {
    var db: Db

    constructor (initial: Db)
      ensures db == initial
    {
      db := initial;
    }

    /** One awaited `setDoc` / `updateDoc` / `deleteDoc`; `err` is the error it rejects with, if any. */
    method Commit(w: Write, fault: Option<string>) returns (err: Option<StoreError>)
      modifies this
      ensures Apply(old(db), w, fault).Ok? ==> db == Apply(old(db), w, fault).value && err == None
      ensures Apply(old(db), w, fault).Err? ==> db == old(db) && err == Some(Apply(old(db), w, fault).error)
    {
      match Apply(db, w, fault)
      case Ok(d) =>
        db := d;
        err := None;
      case Err(e) =>
        err := Some(e);
    }

    /**
     * The next awaited call of a fan-out inside one `try` block: issued only if no earlier call threw.
     * `db0` is the state before the first call.
     */
    method Step(ghost db0: Db, ws: seq<Write>, fault: nat -> Option<string>, i: nat, failed: Option<(nat, StoreError)>)
      returns (next: Option<(nat, StoreError)>)
      requires i < |ws|
      requires Run(db0, ws[..i], fault) == Outcome(db, failed)
      modifies this
      ensures Run(db0, ws[..i + 1], fault) == Outcome(db, next)
    {
      assert ws[..i + 1][..i] == ws[..i];
      if failed.Some? {
        next := failed;
      } else {
        var e := Commit(ws[i], fault(i));
        next := if e.Some? then Some((i, e.value)) else None;
      }
    }

    /** The server-side aggregate `sum(field)` over a collection. */
    method SumField(c: string, field: string) returns (total: int)
      ensures total == FieldSum(Docs(db, c), field)
    {
      var rest := Docs(db, c);
      total := 0;
      while rest != map[]
        invariant total + FieldSum(rest, field) == FieldSum(Docs(db, c), field)
        decreases rest.Keys
      {
        var k :| k in rest;
        FieldSumRemove(rest, field, k);
        total := total + NumberIn(rest[k], field);
        rest := rest - {k};
      }
    }
  }

  /**
   * Once a prefix of the sequence has failed, the rest is never issued: the whole run is that prefix's run.
   */
  lemma {:induction false} RunAfterFailure(db: Db, ws: seq<Write>, fault: nat -> Option<string>, j: nat)
    requires j <= |ws|
    requires Run(db, ws[..j], fault).failure.Some?
    ensures Run(db, ws, fault) == Run(db, ws[..j], fault)
    decreases |ws| - j
  {
    if j < |ws| {
      var n := |ws| - 1;
      assert ws[..n][..j] == ws[..j];
      RunAfterFailure(db, ws[..n], fault, j);
    } else {
      assert ws[..j] == ws;
    }
  }

  /** The numeric value of a field; the aggregate `sum` ignores documents where it is absent or not a number. */
  function NumberIn(d: Doc, field: string): int
  {
    if field in d && d[field].Int? then d[field].i else 0
  }

  /** The sum of `field` over all documents of a collection. */
  ghost function FieldSum(c: Collection, field: string): (r: int)
    ensures (forall k :: k in c ==> NumberIn(c[k], field) >= 0) ==> r >= 0
    ensures c == map[] ==> r == 0
    decreases c.Keys
  {
    if c == map[] then 0
    else
      var k :| k in c;
      assert (c - {k}).Keys < c.Keys;
      NumberIn(c[k], field) + FieldSum(c - {k}, field)
  }

  /** The sum does not depend on the order in which documents are visited. */
  lemma FieldSumRemove(c: Collection, field: string, k: string)
    requires k in c
    ensures FieldSum(c, field) == NumberIn(c[k], field) + FieldSum(c - {k}, field)
    decreases c.Keys
  {
    var j :| j in c && FieldSum(c, field) == NumberIn(c[j], field) + FieldSum(c - {j}, field);
    if j != k {
      assert (c - {j}).Keys < c.Keys;
      assert (c - {k}).Keys < c.Keys;
      FieldSumRemove(c - {j}, field, k);
      FieldSumRemove(c - {k}, field, j);
      assert c - {j} - {k} == c - {k} - {j};
    }
  }

  /** Overwriting one document changes the sum by the difference of the two values. */
  lemma FieldSumPut(c: Collection, field: string, k: string, d: Doc)
    ensures FieldSum(c[k := d], field)
         == FieldSum(c, field) - (if k in c then NumberIn(c[k], field) else 0) + NumberIn(d, field)
  {
    FieldSumRemove(c[k := d], field, k);
    assert c[k := d] - {k} == c - {k};
    if k in c {
      FieldSumRemove(c, field, k);
    } else {
      assert c - {k} == c;
    }
  }
}
