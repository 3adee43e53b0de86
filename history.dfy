/**
 * Any sequence of repository calls, run one after another as indivisible
 * steps. Used to state what holds across calls: the invariant survives
 * every run, the `'ideas'` counter never goes down, and the ids that
 * `save` hands out are strictly increasing, so an id is never handed out
 * twice, whatever was deleted in between.
 */
module History {
  import opened Schemas
  import opened Store

  /** One call on the repository. */
  datatype Request =
    | NextValue(entity: string)
    | SaveIdea(create: CreateIdeaDto)
    | FindIdea(id: int)
    | ListIdeas
    | UpdateIdea(id: int, update: UpdateIdeaDto)
    | DeleteAllIdeas
    | DeleteIdea(id: int)

  /** The state after one call. Reads leave it as it is. */
  function Step(st: Snapshot, req: Request): Snapshot {
    match req
    case NextValue(e) => NextSequenceValue(st, e).0
    case SaveIdea(dto) => Save(st, dto).0
    case FindIdea(_) => st
    case ListIdeas => st
    case UpdateIdea(id, dto) => Update(st, id, dto).0
    case DeleteAllIdeas => DeleteAll(st)
    case DeleteIdea(id) => DeleteById(st, id).0
  }

  /** The state after the calls in order. */
  function Run(st: Snapshot, reqs: seq<Request>): Snapshot
    decreases |reqs|
  {
    if reqs == [] then st else Run(Step(st, reqs[0]), reqs[1..])
  }

  /** The ids of the records the `save` calls of a run store, in order. */
  function Issued(st: Snapshot, reqs: seq<Request>): seq<int>
    decreases |reqs|
  {
    if reqs == [] then []
    else
      var saved := reqs[0].SaveIdea? && Save(st, reqs[0].create).1.Saved?;
      var here := if saved then [Save(st, reqs[0].create).1.idea.id] else [];
      here + Issued(Step(st, reqs[0]), reqs[1..])
  }

  /** The values one call draws from `entity`'s counter: what a direct
   *  draw returns, or, on the `'ideas'` counter, the value a save draws
   *  whether or not its insert then passes validation. */
  function DrawnBy(st: Snapshot, req: Request, entity: string): seq<int> {
    if req == NextValue(entity) || (req.SaveIdea? && entity == IdeasEntity)
    then [NextSequenceValue(st, entity).1]
    else []
  }

  /** The values the calls of a run draw from `entity`'s counter, in order. */
  function Drawn(st: Snapshot, entity: string, reqs: seq<Request>): seq<int>
    decreases |reqs|
  {
    if reqs == [] then []
    else DrawnBy(st, reqs[0], entity) + Drawn(Step(st, reqs[0]), entity, reqs[1..])
  }

  /** Every call keeps the invariant: ids are in 1..seq and keyed by themselves. */
  lemma {:induction false} RunKeepsInv(st: Snapshot, reqs: seq<Request>)
    requires Inv(st)
    ensures Inv(Run(st, reqs))
    decreases |reqs|
  {
    if reqs != [] {
      RunKeepsInv(Step(st, reqs[0]), reqs[1..]);
    }
  }

  /** One call moves the `'ideas'` counter by at most one step up: a
   *  save advances it whether or not its insert passes validation, and a
   *  stored record carries the new value; a read or a delete leaves it. */
  lemma StepCounter(st: Snapshot, req: Request)
    ensures SeqOf(st.counters, IdeasEntity) <= SeqOf(Step(st, req).counters, IdeasEntity)
    ensures req.SaveIdea? ==> SeqOf(Step(st, req).counters, IdeasEntity) == SeqOf(st.counters, IdeasEntity) + 1
    ensures req.SaveIdea? && Save(st, req.create).1.Saved? ==>
              Save(st, req.create).1.idea.id == SeqOf(Step(st, req).counters, IdeasEntity)
    ensures req != NextValue(IdeasEntity) && !req.SaveIdea? ==>
              SeqOf(Step(st, req).counters, IdeasEntity) == SeqOf(st.counters, IdeasEntity)
  {
  }

  /** One call draws from `entity`'s counter at most once, the value after
   *  the current one, and the counter moves by exactly what it draws. */
  lemma StepDraws(st: Snapshot, req: Request, entity: string)
    ensures SeqOf(Step(st, req).counters, entity) == SeqOf(st.counters, entity) + |DrawnBy(st, req, entity)|
    ensures DrawnBy(st, req, entity) != [] ==> DrawnBy(st, req, entity) == [SeqOf(st.counters, entity) + 1]
  {
  }

  /** Each element is smaller than every later one. */
  predicate StrictlyIncreasing(s: seq<int>) {
    forall i, j :: 0 <= i < j < |s| ==> s[i] < s[j]
  }

  /** Every element lies in low + 1..high. */
  predicate Within(s: seq<int>, low: int, high: int) {
    forall i :: 0 <= i < |s| ==> low < s[i] <= high
  }

  /** Putting in front a value that every element lies above keeps the
   *  order, and the bounds widen to take it in. */
  lemma PrependSmaller(x: int, s: seq<int>, low: int, high: int)
    requires StrictlyIncreasing(s) && Within(s, x, high)
    requires low < x <= high
    ensures StrictlyIncreasing([x] + s) && Within([x] + s, low, high)
  {
    var t := [x] + s;
    forall i, j | 0 <= i < j < |t| ensures t[i] < t[j] {
      assert t[j] == s[j - 1];
      if i > 0 { assert t[i] == s[i - 1]; }
    }
    forall i | 0 < i < |t| ensures low < t[i] <= high {
      assert t[i] == s[i - 1];
    }
  }

  /** A bound that holds for a narrower range holds for a wider one. */
  lemma WidenWithin(s: seq<int>, low: int, high: int, low': int, high': int)
    requires Within(s, low, high) && low' <= low && high <= high'
    ensures Within(s, low', high')
  {
  }

  /** Over a run the `'ideas'` counter never goes down. */
  lemma {:induction false} RunCounterGrows(st: Snapshot, reqs: seq<Request>)
    ensures SeqOf(st.counters, IdeasEntity) <= SeqOf(Run(st, reqs).counters, IdeasEntity)
    decreases |reqs|
  {
    if reqs != [] {
      RunCounterGrows(Step(st, reqs[0]), reqs[1..]);
      StepCounter(st, reqs[0]);
    }
  }

  /** The ids a run hands out lie above the counter it started from and at
   *  most the one it ends with, and come out strictly increasing: no id is
   *  handed out twice. */
  lemma {:induction false} IssuedIdsIncrease(st: Snapshot, reqs: seq<Request>)
    ensures Within(Issued(st, reqs), SeqOf(st.counters, IdeasEntity), SeqOf(Run(st, reqs).counters, IdeasEntity))
    ensures StrictlyIncreasing(Issued(st, reqs))
    decreases |reqs|
  {
    if reqs != [] {
      var next := Step(st, reqs[0]);
      IssuedIdsIncrease(next, reqs[1..]);
      RunCounterGrows(next, reqs[1..]);
      StepCounter(st, reqs[0]);
      var low, mid, high := SeqOf(st.counters, IdeasEntity), SeqOf(next.counters, IdeasEntity), SeqOf(Run(next, reqs[1..]).counters, IdeasEntity);
      var rest := Issued(next, reqs[1..]);
      if reqs[0].SaveIdea? && Save(st, reqs[0].create).1.Saved? {
        assert Issued(st, reqs) == [mid] + rest;
        PrependSmaller(mid, rest, low, high);
      } else {
        assert Issued(st, reqs) == rest;
        WidenWithin(rest, mid, high, low, high);
      }
    }
  }

  /** The elements are n, n + 1, n + 2, ... */
  predicate CountsUpFrom(s: seq<int>, n: int) {
    forall i :: 0 <= i < |s| ==> s[i] == n + i
  }

  /** Putting n in front of n + 1, n + 2, ... gives n, n + 1, ... */
  lemma PrependPredecessor(n: int, s: seq<int>)
    requires CountsUpFrom(s, n + 1)
    ensures CountsUpFrom([n] + s, n)
  {
    var t := [n] + s;
    forall i | 0 < i < |t| ensures t[i] == n + i {
      assert t[i] == s[i - 1];
    }
  }

  /** The sequence generator law, for every entity: the k-th value a run
   *  draws from a counter (counting from 0) is the counter's starting
   *  value plus k + 1, with no gaps and no repeats, and the counter ends
   *  at its start plus the number of draws. */
  lemma {:induction false} DrawsCountUp(st: Snapshot, entity: string, reqs: seq<Request>)
    ensures SeqOf(Run(st, reqs).counters, entity) == SeqOf(st.counters, entity) + |Drawn(st, entity, reqs)|
    ensures CountsUpFrom(Drawn(st, entity, reqs), SeqOf(st.counters, entity) + 1)
    decreases |reqs|
  {
    if reqs != [] {
      var next := Step(st, reqs[0]);
      DrawsCountUp(next, entity, reqs[1..]);
      StepDraws(st, reqs[0], entity);
      var start, here, rest := SeqOf(st.counters, entity), DrawnBy(st, reqs[0], entity), Drawn(next, entity, reqs[1..]);
      assert Drawn(st, entity, reqs) == here + rest;
      if here != [] {
        assert SeqOf(next.counters, entity) == start + 1;
        PrependPredecessor(start + 1, rest);
      } else {
        assert SeqOf(next.counters, entity) == start;
      }
    }
  }

  /** Every draw from the `'ideas'` counter in the run is a save whose
   *  insert passes validation: no direct draw, no empty title or
   *  description. */
  predicate EveryDrawStores(reqs: seq<Request>) {
    forall k :: 0 <= k < |reqs| ==>
      && reqs[k] != NextValue(IdeasEntity)
      && (reqs[k].SaveIdea? ==> reqs[k].create.title != "" && reqs[k].create.description != "")
  }

  /** Dropping the first call keeps EveryDrawStores. */
  lemma EveryDrawStoresTail(reqs: seq<Request>)
    requires reqs != [] && EveryDrawStores(reqs)
    ensures EveryDrawStores(reqs[1..])
  {
    forall k | 0 <= k < |reqs[1..]| ensures reqs[1..][k] == reqs[k + 1] {
    }
  }

  /** When every draw from the `'ideas'` counter is a save that stores,
   *  the stored ids are exactly the drawn values. */
  lemma {:induction false} IssuedAreDrawn(st: Snapshot, reqs: seq<Request>)
    requires EveryDrawStores(reqs)
    ensures Issued(st, reqs) == Drawn(st, IdeasEntity, reqs)
    decreases |reqs|
  {
    if reqs != [] {
      EveryDrawStoresTail(reqs);
      IssuedAreDrawn(Step(st, reqs[0]), reqs[1..]);
    }
  }

  /** When every draw from the `'ideas'` counter is a save that stores,
   *  the k-th save of a run (counting from 0) gets the counter's starting
   *  value plus k + 1: successive saves return 1, 2, 3, ... from a fresh
   *  counter, and neither deleting one idea nor deleting all of them
   *  resets or reuses an id. The counter ends at its start plus the
   *  number of saves. */
  lemma IssuedIdsConsecutive(st: Snapshot, reqs: seq<Request>)
    requires EveryDrawStores(reqs)
    ensures SeqOf(Run(st, reqs).counters, IdeasEntity) == SeqOf(st.counters, IdeasEntity) + |Issued(st, reqs)|
    ensures CountsUpFrom(Issued(st, reqs), SeqOf(st.counters, IdeasEntity) + 1)
  {
    IssuedAreDrawn(st, reqs);
    DrawsCountUp(st, IdeasEntity, reqs);
  }

  /** A saved record is found under the id it was given; when the insert
   *  fails validation, the id it drew stays unused. */
  lemma FindAfterSave(st: Snapshot, dto: CreateIdeaDto)
    ensures Save(st, dto).1.Saved? ==> FindById(Save(st, dto).0, Save(st, dto).1.idea.id) == Ok(Save(st, dto).1.idea)
    ensures Inv(st) && Save(st, dto).1.ValidationError? ==>
              FindById(Save(st, dto).0, SeqOf(st.counters, IdeasEntity) + 1) == NotFound
  {
  }

  /** After an update the id finds the post-update record, and every other
   *  id finds what it found before. */
  lemma FindAfterUpdate(st: Snapshot, id: int, dto: UpdateIdeaDto, other: int)
    ensures Update(st, id, dto).1.Ok? ==> FindById(Update(st, id, dto).0, id) == Update(st, id, dto).1
    ensures other != id ==> FindById(Update(st, id, dto).0, other) == FindById(st, other)
  {
  }

  /** After a delete the id is not found, and every other id finds what it
   *  found before. */
  lemma FindAfterDelete(st: Snapshot, id: int, other: int)
    ensures FindById(DeleteById(st, id).0, id) == NotFound
    ensures other != id ==> FindById(DeleteById(st, id).0, other) == FindById(st, other)
  {
  }

  /** After deleting everything nothing is found, and the next save
   *  draws the next counter value, above every id that was stored before:
   *  in particular never 1 again once an idea was stored. */
  lemma SaveAfterDeleteAll(st: Snapshot, dto: CreateIdeaDto, id: int)
    requires Inv(st)
    ensures FindById(DeleteAll(st), id) == NotFound
    ensures SeqOf(Save(DeleteAll(st), dto).0.counters, IdeasEntity) == SeqOf(st.counters, IdeasEntity) + 1
    ensures Save(DeleteAll(st), dto).1.Saved? ==> Save(DeleteAll(st), dto).1.idea.id == SeqOf(st.counters, IdeasEntity) + 1
    ensures id in st.ideas && Save(DeleteAll(st), dto).1.Saved? ==>
              1 < Save(DeleteAll(st), dto).1.idea.id && id < Save(DeleteAll(st), dto).1.idea.id
  {
  }
}
