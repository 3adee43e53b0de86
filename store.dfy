/**
 * The meaning of the two collections the repository owns.
 *
 * The counter table maps an entity name to its `seq`; a name without a
 * counter document reads as 0. The idea collection is a sequence of
 * documents in the store's natural order; `Table` forgets that order and
 * views it as a map from id to record, which is all the keyed operations
 * and `find()` promise. `Snapshot` pairs the two views, and the functions
 * below say what each repository operation does to a snapshot.
 */
module Store {
  import opened Wrappers
  import opened Schemas

  /** The current value of `entity`'s counter, 0 while it has none. */
  function SeqOf(counters: map<string, nat>, entity: string): nat {
    if entity in counters then counters[entity] else 0
  }

  /** The unique index on `id`: no two documents share an id. */
  predicate DistinctIds(s: seq<Idea>) {
    forall i, j :: 0 <= i < j < |s| ==> s[i].id != s[j].id
  }

  /** The collection viewed as a map from id to record. */
  function Table(s: seq<Idea>): (t: map<int, Idea>)
    ensures forall id :: id in t <==> exists i :: 0 <= i < |s| && s[i].id == id
    ensures forall id :: id in t ==> t[id].id == id
  {
    if s == [] then map[]
    else
      var last := s[|s| - 1];
      Table(s[..|s| - 1])[last.id := last]
  }

  /** With distinct ids, every document is what the map holds at its id. */
  lemma {:induction false} TableAt(s: seq<Idea>, i: int)
    requires DistinctIds(s) && 0 <= i < |s|
    ensures s[i].id in Table(s) && Table(s)[s[i].id] == s[i]
  {
    if i < |s| - 1 {
      var init := s[..|s| - 1];
      assert init[i] == s[i];
      TableAt(init, i);
    }
  }

  /** With distinct ids, a record is in the collection exactly when the
   *  map holds it at its own id. */
  lemma TableHolds(s: seq<Idea>)
    requires DistinctIds(s)
    ensures forall x :: x in s <==> x.id in Table(s) && Table(s)[x.id] == x
  {
    forall x | x in s
      ensures x.id in Table(s) && Table(s)[x.id] == x
    {
      var i :| 0 <= i < |s| && s[i] == x;
      TableAt(s, i);
    }
  }

  /** With distinct ids, the map holds exactly the documents. */
  lemma TableValues(s: seq<Idea>)
    requires DistinctIds(s)
    ensures forall x :: x in Table(s).Values <==> x in s
  {
    TableHolds(s);
    forall x | x in Table(s).Values ensures x in s {
      var id :| id in Table(s) && Table(s)[id] == x;
      var i :| 0 <= i < |s| && s[i].id == id;
      TableAt(s, i);
    }
  }

  /** With distinct ids, the map has one entry per document. */
  lemma {:induction false} TableSize(s: seq<Idea>)
    requires DistinctIds(s)
    ensures |Table(s)| == |s|
  {
    if s != [] {
      var init := s[..|s| - 1];
      assert forall i :: 0 <= i < |init| ==> init[i] == s[i];
      TableSize(init);
    }
  }

  /** Appending a document adds its entry to the map. */
  lemma TableAppend(s: seq<Idea>, x: Idea)
    ensures Table(s + [x]) == Table(s)[x.id := x]
  {
    assert (s + [x])[..|s|] == s;
  }

  /** A prefix of a collection with distinct ids has distinct ids. */
  lemma DistinctPrefix(s: seq<Idea>, n: int)
    requires DistinctIds(s) && 0 <= n <= |s|
    ensures DistinctIds(s[..n])
  {
    assert forall i :: 0 <= i < n ==> s[..n][i] == s[i];
  }

  /** Removing one document keeps the ids distinct. */
  lemma DistinctRemoveAt(s: seq<Idea>, k: int)
    requires DistinctIds(s) && 0 <= k < |s|
    ensures DistinctIds(s[..k] + s[k + 1..])
  {
    var r := s[..k] + s[k + 1..];
    forall i, j | 0 <= i < j < |r| ensures r[i].id != r[j].id {
      assert r[i] == s[if i < k then i else i + 1];
      assert r[j] == s[if j < k then j else j + 1];
    }
  }

  /** Removing the document at `k` removes exactly its id from the map. */
  lemma {:induction false} TableRemoveAt(s: seq<Idea>, k: int)
    requires DistinctIds(s) && 0 <= k < |s|
    ensures DistinctIds(s[..k] + s[k + 1..])
    ensures Table(s[..k] + s[k + 1..]) == Table(s) - {s[k].id}
  {
    DistinctRemoveAt(s, k);
    var init, last := s[..|s| - 1], s[|s| - 1];
    DistinctPrefix(s, |s| - 1);
    if k == |s| - 1 {
      assert s[..k] + s[k + 1..] == init;
      assert forall i :: 0 <= i < |init| ==> init[i].id != last.id;
      RemoveAfterUpdate(Table(init), last.id, last);
    } else {
      var r' := init[..k] + init[k + 1..];
      assert s[..k] + s[k + 1..] == r' + [last];
      assert init[k] == s[k];
      TableRemoveAt(init, k);
      TableAppend(r', last);
      UpdateAfterRemove(Table(init), s[k].id, last.id, last);
    }
  }

  /** Setting a fresh key and removing it again is no change. */
  lemma RemoveAfterUpdate(m: map<int, Idea>, key: int, v: Idea)
    requires key !in m
    ensures m[key := v] - {key} == m
  {
  }

  /** Removing a key and then setting another one commutes. */
  lemma UpdateAfterRemove(m: map<int, Idea>, gone: int, key: int, v: Idea)
    requires gone != key
    ensures (m - {gone})[key := v] == m[key := v] - {gone}
  {
  }

  /** Replacing the document at `k` by a record with the same id
   *  replaces exactly that entry of the map. */
  lemma {:induction false} TableUpdateAt(s: seq<Idea>, k: int, y: Idea)
    requires DistinctIds(s) && 0 <= k < |s| && y.id == s[k].id
    ensures DistinctIds(s[k := y])
    ensures Table(s[k := y]) == Table(s)[y.id := y]
  {
    var init, last := s[..|s| - 1], s[|s| - 1];
    DistinctPrefix(s, |s| - 1);
    assert forall i :: 0 <= i < |s| ==> s[k := y][i].id == s[i].id;
    if k == |s| - 1 {
      assert s[k := y] == init + [y];
      TableAppend(init, y);
    } else {
      assert s[k := y] == init[k := y] + [last];
      assert init[k] == s[k];
      TableUpdateAt(init, k, y);
      TableAppend(init[k := y], last);
      SwapUpdates(Table(init), y.id, y, last.id, last);
    }
  }

  /** Setting two different keys commutes. */
  lemma SwapUpdates(m: map<int, Idea>, a: int, u: Idea, b: int, v: Idea)
    requires a != b
    ensures m[a := u][b := v] == m[b := v][a := u]
  {
  }

  /** What the repository keeps true of its collections: the unique index
   *  holds, and every id was handed out by the `'ideas'` counter. */
  predicate Consistent(counters: map<string, nat>, ideas: seq<Idea>) {
    && DistinctIds(ideas)
    && forall i :: 0 <= i < |ideas| ==> 1 <= ideas[i].id <= SeqOf(counters, IdeasEntity)
  }

  /** The two collections, each viewed by key. */
  datatype Snapshot = Snapshot(counters: map<string, nat>, ideas: map<int, Idea>)

  /** Every record sits at its own id, and every id was handed out by the
   *  `'ideas'` counter: it lies in 1..seq. */
  predicate Inv(st: Snapshot) {
    forall id :: id in st.ideas ==> st.ideas[id].id == id && 1 <= id <= SeqOf(st.counters, IdeasEntity)
  }

  /** Appending a record that carries the next counter value, with the
   *  counter advanced to it, keeps the collections consistent. */
  lemma ConsistentAppend(counters: map<string, nat>, ideas: seq<Idea>, idea: Idea)
    requires Consistent(counters, ideas)
    requires idea.id == SeqOf(counters, IdeasEntity) + 1
    ensures Consistent(counters[IdeasEntity := idea.id], ideas + [idea])
  {
    var s := ideas + [idea];
    forall i, j | 0 <= i < j < |s| ensures s[i].id != s[j].id {
      if j < |ideas| { assert s[i] == ideas[i] && s[j] == ideas[j]; }
      else { assert s[i] == ideas[i]; }
    }
  }

  /** Removing one document keeps the collections consistent. */
  lemma ConsistentRemoveAt(counters: map<string, nat>, ideas: seq<Idea>, k: int)
    requires Consistent(counters, ideas) && 0 <= k < |ideas|
    ensures Consistent(counters, ideas[..k] + ideas[k + 1..])
  {
    DistinctRemoveAt(ideas, k);
    var r := ideas[..k] + ideas[k + 1..];
    forall i | 0 <= i < |r| ensures 1 <= r[i].id <= SeqOf(counters, IdeasEntity) {
      assert r[i] == ideas[if i < k then i else i + 1];
    }
  }

  /** Replacing one document by a record with the same id keeps the
   *  collections consistent. */
  lemma ConsistentUpdateAt(counters: map<string, nat>, ideas: seq<Idea>, k: int, y: Idea)
    requires Consistent(counters, ideas) && 0 <= k < |ideas| && y.id == ideas[k].id
    ensures Consistent(counters, ideas[k := y])
  {
    var r := ideas[k := y];
    assert forall i :: 0 <= i < |r| ==> r[i].id == ideas[i].id;
  }

  /** Consistent collections give a snapshot that keeps the invariant. */
  lemma ConsistentInv(counters: map<string, nat>, ideas: seq<Idea>)
    requires Consistent(counters, ideas)
    ensures Inv(Snapshot(counters, Table(ideas)))
  {
  }

  /** `findOneAndUpdate({entity}, {$inc: {seq: 1}}, {new: true, upsert: true})`:
   *  create the counter at 0 if absent, add 1, return the new value. */
  function NextSequenceValue(st: Snapshot, entity: string): (r: (Snapshot, nat))
    ensures entity !in st.counters ==> r.1 == 1
    ensures entity in st.counters ==> r.1 == st.counters[entity] + 1
    ensures r.0.counters.Keys == st.counters.Keys + {entity}
    ensures SeqOf(r.0.counters, entity) == r.1
    ensures forall e :: e != entity ==> SeqOf(r.0.counters, e) == SeqOf(st.counters, e)
    ensures r.0.ideas == st.ideas
    ensures Inv(st) ==> Inv(r.0)
  {
    var v := SeqOf(st.counters, entity) + 1;
    (st.(counters := st.counters[entity := v]), v)
  }

  /** `save`: draw the next `'ideas'` value, then insert a record with
   *  that id and the body's title and description. The insert fails
   *  validation when the title or the description is empty; the drawn
   *  value stays consumed. */
  function Save(st: Snapshot, dto: CreateIdeaDto): (r: (Snapshot, SaveResult))
    ensures r.0.counters == NextSequenceValue(st, IdeasEntity).0.counters
    ensures r.1.Saved? <==> dto.title != "" && dto.description != ""
    ensures r.1.ValidationError? ==> r.0.ideas == st.ideas
    ensures r.1.Saved? ==> r.1.idea.id == SeqOf(st.counters, IdeasEntity) + 1
    ensures r.1.Saved? ==> r.1.idea.title == dto.title && r.1.idea.description == dto.description
    ensures r.1.Saved? ==> r.0.ideas.Keys == st.ideas.Keys + {r.1.idea.id} && r.0.ideas[r.1.idea.id] == r.1.idea
    ensures Inv(st) ==> Inv(r.0)
    ensures Inv(st) && r.1.Saved? ==> r.1.idea.id !in st.ideas && |r.0.ideas| == |st.ideas| + 1
    ensures Inv(st) ==> forall id :: id in st.ideas ==> id in r.0.ideas && r.0.ideas[id] == st.ideas[id]
  {
    var (next, id) := NextSequenceValue(st, IdeasEntity);
    var idea := Idea(id, dto.title, dto.description);
    if PassesValidation(idea) then (next.(ideas := next.ideas[id := idea]), Saved(idea))
    else (next, ValidationError)
  }

  /** `findOne({id})`, failing when no record has the id. */
  function FindById(st: Snapshot, id: int): (r: Result<Idea>)
    ensures r.NotFound? <==> id !in st.ideas
    ensures r.Ok? ==> r.value == st.ideas[id]
    ensures Inv(st) && r.Ok? ==> r.value.id == id
  {
    if id in st.ideas then Ok(st.ideas[id]) else NotFound
  }

  /** The record with the fields the body supplies overwritten verbatim
   *  and every other field kept. */
  function ApplyUpdate(idea: Idea, dto: UpdateIdeaDto): Idea {
    Idea(idea.id, dto.title.GetOr(idea.title), dto.description.GetOr(idea.description))
  }

  /** `findOneAndUpdate({id}, dto, {new: true})`, failing when no record
   *  has the id; the post-update record is returned. */
  function Update(st: Snapshot, id: int, dto: UpdateIdeaDto): (r: (Snapshot, Result<Idea>))
    ensures r.1.NotFound? <==> id !in st.ideas
    ensures r.1.NotFound? ==> r.0 == st
    ensures r.1.Ok? ==> r.1.value.id == st.ideas[id].id
    ensures r.1.Ok? ==> r.1.value.title == (if dto.title.Some? then dto.title.value else st.ideas[id].title)
    ensures r.1.Ok? ==> r.1.value.description == (if dto.description.Some? then dto.description.value else st.ideas[id].description)
    ensures r.1.Ok? ==> r.0.ideas.Keys == st.ideas.Keys && r.0.ideas[id] == r.1.value
    ensures forall k :: k in st.ideas && k != id ==> k in r.0.ideas && r.0.ideas[k] == st.ideas[k]
    ensures r.0.counters == st.counters
    ensures Inv(st) ==> Inv(r.0)
  {
    if id in st.ideas then
      var updated := ApplyUpdate(st.ideas[id], dto);
      (st.(ideas := st.ideas[id := updated]), Ok(updated))
    else
      (st, NotFound)
  }

  /** `deleteMany({})`: every record goes, the counters stay. */
  function DeleteAll(st: Snapshot): (r: Snapshot)
    ensures r.ideas == map[]
    ensures r.counters == st.counters
    ensures Inv(r)
  {
    st.(ideas := map[])
  }

  /** `findOneAndDelete({id})`, failing when no record has the id. */
  function DeleteById(st: Snapshot, id: int): (r: (Snapshot, Result<()>))
    ensures r.1.NotFound? <==> id !in st.ideas
    ensures r.1.NotFound? ==> r.0 == st
    ensures r.0.ideas.Keys == st.ideas.Keys - {id}
    ensures forall k :: k in r.0.ideas ==> r.0.ideas[k] == st.ideas[k]
    ensures r.0.counters == st.counters
    ensures Inv(st) ==> Inv(r.0)
  {
    if id in st.ideas then (st.(ideas := st.ideas - {id}), Ok(())) else (st, NotFound)
  }
}
