/** The document store: each collection is a sequence of documents in natural (insertion)
    order, so `findOne` returns the first match, as MongoDB does without a sort. */
module Store {
  import opened Common

  /** An ObjectId as text. Route parameters and validated body fields are never empty. */
  type Id = s: string | |s| > 0 witness "0"

  datatype Doc<T> = Doc(id: Id, val: T)

  /** Index of the first element satisfying `p`. */
  function First<T>(c: seq<T>, p: T -> bool): (r: Option<nat>)
    ensures r.Some? ==> r.value < |c| && p(c[r.value])
    ensures r.Some? ==> forall j | 0 <= j < r.value :: !p(c[j])
    ensures r.None? ==> forall j | 0 <= j < |c| :: !p(c[j])
  {
    if |c| == 0 then None
    else if p(c[0]) then Some(0)
    else match First(c[1..], p)
      case None => None
      case Some(j) => Some(j + 1)
  }

  /** The first match is determined by which positions match. */
  lemma FirstDeterminedByMatches<T, U>(c: seq<T>, p: T -> bool, e: seq<U>, q: U -> bool)
    requires |c| == |e|
    requires forall j | 0 <= j < |c| :: p(c[j]) == q(e[j])
    ensures First(c, p) == First(e, q)
  {
  }

  /** Position of the document with that id. */
  function IndexOf<T>(c: seq<Doc<T>>, id: Id): (r: Option<nat>)
    ensures r.Some? ==> r.value < |c| && c[r.value].id == id
    ensures r.Some? ==> forall j | 0 <= j < r.value :: c[j].id != id
    ensures r.None? ==> forall j | 0 <= j < |c| :: c[j].id != id
  {
    First(c, (d: Doc<T>) => d.id == id)
  }

  function Ids<T>(c: seq<Doc<T>>): set<Id>
  {
    set j | 0 <= j < |c| :: c[j].id
  }

  /** Every document of the collection has its own id. */
  predicate UniqueIds<T>(c: seq<Doc<T>>)
  {
    forall i, j | 0 <= i < j < |c| :: c[i].id != c[j].id
  }

  /** Every document of the collection satisfies `p`. */
  predicate All<T>(c: seq<Doc<T>>, p: Doc<T> -> bool)
  {
    forall j | 0 <= j < |c| :: p(c[j])
  }

  /** `findById`: the document with that id, if any. */
  function Get<T>(c: seq<Doc<T>>, id: Id): (r: Option<T>)
    ensures r.Some? <==> id in Ids(c)
    ensures r.Some? ==> exists j | 0 <= j < |c| :: c[j] == Doc(id, r.value)
    ensures UniqueIds(c) ==> forall j | 0 <= j < |c| && c[j].id == id :: r == Some(c[j].val)
  {
    match IndexOf(c, id)
    case None => None
    case Some(i) => Some(c[i].val)
  }

  /** Saving a changed document: the document with that id gets the new value. */
  function Put<T>(c: seq<Doc<T>>, id: Id, v: T): (r: seq<Doc<T>>)
    ensures |r| == |c|
    ensures forall j | 0 <= j < |c| :: r[j].id == c[j].id
    ensures forall j | 0 <= j < |c| :: r[j] == c[j] || r[j] == Doc(id, v)
    ensures Ids(r) == Ids(c)
    ensures id in Ids(c) ==> Get(r, id) == Some(v)
    ensures forall k :: k != id ==> Get(r, k) == Get(c, k)
    ensures UniqueIds(c) ==> UniqueIds(r)
  {
    match IndexOf(c, id)
    case None => c
    case Some(i) =>
      var r := c[i := Doc(id, v)];
      assert forall k :: IndexOf(r, k) == IndexOf(c, k) by {
        forall k ensures IndexOf(r, k) == IndexOf(c, k) {
          FirstDeterminedByMatches(r, (d: Doc<T>) => d.id == k, c, (d: Doc<T>) => d.id == k);
        }
      }
      r
  }

  /** Replacing the document at position `i` by one with the same id: lookups find the same
      positions, and only the lookup that lands on `i` sees the new value. */
  lemma ReplaceAt<T>(c: seq<Doc<T>>, i: nat, d: Doc<T>)
    requires i < |c| && d.id == c[i].id
    ensures forall k :: IndexOf(c[i := d], k) == IndexOf(c, k)
    ensures forall k :: Get(c[i := d], k) == (if IndexOf(c, k) == Some(i) then Some(d.val) else Get(c, k))
    ensures UniqueIds(c) ==> UniqueIds(c[i := d])
  {
    var r := c[i := d];
    forall k ensures IndexOf(r, k) == IndexOf(c, k) {
      FirstDeterminedByMatches(r, (x: Doc<T>) => x.id == k, c, (x: Doc<T>) => x.id == k);
    }
  }

  /** Removing position `i` shifts the position of every other id's first match. */
  lemma IndexOfAfterRemove<T>(c: seq<Doc<T>>, i: nat, k: Id)
    requires i < |c| && c[i].id != k
    ensures IndexOf(c[..i] + c[i + 1..], k) ==
      match IndexOf(c, k)
      case None => None
      case Some(m) => Some(if m < i then m else m - 1)
  {
    var r := c[..i] + c[i + 1..];
    assert forall j | 0 <= j < |r| :: r[j] == (if j < i then c[j] else c[j + 1]);
    match IndexOf(c, k)
    case None =>
    case Some(m) =>
      var e := if m < i then m else m - 1;
      assert r[e] == c[m];
      assert forall j | 0 <= j < e :: r[j].id != k;
  }

  /** Removing position `i` leaves the lookup of every other id unchanged. */
  lemma GetAfterRemove<T>(c: seq<Doc<T>>, i: nat, k: Id)
    requires i < |c| && c[i].id != k
    ensures Get(c[..i] + c[i + 1..], k) == Get(c, k)
  {
    IndexOfAfterRemove(c, i, k);
    var r := c[..i] + c[i + 1..];
    match IndexOf(c, k)
    case None =>
    case Some(m) =>
      assert r[if m < i then m else m - 1] == c[m];
  }

  /** With unique ids, removing the document at position `i` removes exactly its id. */
  lemma IdsAfterRemove<T>(c: seq<Doc<T>>, i: nat)
    requires i < |c| && UniqueIds(c)
    ensures UniqueIds(c[..i] + c[i + 1..])
    ensures Ids(c[..i] + c[i + 1..]) == Ids(c) - {c[i].id}
  {
    var r := c[..i] + c[i + 1..];
    assert forall j | 0 <= j < |r| :: r[j] == (if j < i then c[j] else c[j + 1]);
    forall x | x in Ids(c) - {c[i].id} ensures x in Ids(r) {
      var m :| 0 <= m < |c| && c[m].id == x;
      assert r[if m < i then m else m - 1].id == x;
    }
  }

  /** Deleting by id: the document with that id goes, the others stay in order. */
  function Delete<T>(c: seq<Doc<T>>, id: Id): (r: seq<Doc<T>>)
    ensures id in Ids(c) ==> |r| == |c| - 1
    ensures id !in Ids(c) ==> r == c
    ensures forall k :: k != id ==> Get(r, k) == Get(c, k)
    ensures UniqueIds(c) ==> UniqueIds(r) && Ids(r) == Ids(c) - {id} && Get(r, id) == None
    ensures forall j | 0 <= j < |r| :: exists i | 0 <= i < |c| :: r[j] == c[i]
  {
    match IndexOf(c, id)
    case None => c
    case Some(i) =>
      var r := c[..i] + c[i + 1..];
      assert forall j | 0 <= j < |r| :: r[j] == (if j < i then c[j] else c[j + 1]);
      assert forall k | k != id :: Get(r, k) == Get(c, k) by {
        forall k | k != id { GetAfterRemove(c, i, k); }
      }
      assert UniqueIds(c) ==> UniqueIds(r) && Ids(r) == Ids(c) - {id} by {
        if UniqueIds(c) { IdsAfterRemove(c, i); }
      }
      r
  }

  /** Inserting a new document at the end of the natural order. */
  function Add<T>(c: seq<Doc<T>>, id: Id, v: T): (r: seq<Doc<T>>)
    ensures |r| == |c| + 1 && r[|c|] == Doc(id, v) && r[..|c|] == c
    ensures Ids(r) == Ids(c) + {id}
    ensures id !in Ids(c) ==> Get(r, id) == Some(v)
    ensures forall k :: k != id ==> Get(r, k) == Get(c, k)
    ensures UniqueIds(c) && id !in Ids(c) ==> UniqueIds(r)
  {
    var r := c + [Doc(id, v)];
    assert forall k | k != id :: Get(r, k) == Get(c, k) by {
      forall k | k != id { IndexOfAfterAppend(c, Doc(id, v), k); }
    }
    r
  }

  /** Appending a document with another id leaves the lookup of `k` where it was. */
  lemma IndexOfAfterAppend<T>(c: seq<Doc<T>>, d: Doc<T>, k: Id)
    requires d.id != k
    ensures IndexOf(c + [d], k) == IndexOf(c, k)
  {
    var r := c + [d];
    assert forall j | 0 <= j < |c| :: r[j] == c[j];
  }

  /** The document `Get` finds has every property all documents have. */
  lemma GetAll<T>(c: seq<Doc<T>>, id: Id, p: Doc<T> -> bool)
    requires All(c, p) && Get(c, id).Some?
    ensures p(Doc(id, Get(c, id).value))
  {
    var j :| 0 <= j < |c| && c[j] == Doc(id, Get(c, id).value);
  }

  /** The three writes keep a property that every stored document has. */
  lemma PutKeeps<T>(c: seq<Doc<T>>, id: Id, v: T, p: Doc<T> -> bool)
    requires All(c, p) && p(Doc(id, v))
    ensures All(Put(c, id, v), p)
  {
  }

  lemma DeleteKeeps<T>(c: seq<Doc<T>>, id: Id, p: Doc<T> -> bool)
    requires All(c, p)
    ensures All(Delete(c, id), p)
  {
  }

  lemma AddKeeps<T>(c: seq<Doc<T>>, id: Id, v: T, p: Doc<T> -> bool)
    requires All(c, p) && p(Doc(id, v))
    ensures All(Add(c, id, v), p)
  {
  }
}
