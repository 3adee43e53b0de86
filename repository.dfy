/**
 * `IdeasRepository`: the persistence layer over two collections, the
 * counters (entity name to `seq`) and the idea documents. Each Mongo call
 * is one indivisible step on the fields below.
 */
module Repository {
  import opened Wrappers
  import opened Schemas
  import Store

  class IdeasRepository {
    /** The counters collection: one `seq` per entity name. */
    var counters: map<string, nat>
    /** The ideas collection in the store's natural order. */
    var ideas: seq<Idea>

    /** The unique index on `id` holds and every id came from the counter. */
    ghost predicate Valid()
      reads this
    {
      Store.Consistent(counters, ideas)
    }

    /** Both collections viewed by key. */
    function Abs(): Store.Snapshot
      reads this
    {
      Store.Snapshot(counters, Store.Table(ideas))
    }

    /** A repository over collections that already hold documents. */
    constructor (counters: map<string, nat>, ideas: seq<Idea>)
      requires Store.Consistent(counters, ideas)
      ensures Valid() && Store.Inv(Abs())
      ensures this.counters == counters && this.ideas == ideas
    {
      this.counters := counters;
      this.ideas := ideas;
      Store.ConsistentInv(counters, ideas);
    }

    /** `getNextSequenceValue`: upsert the counter at 0, add 1, return the
     *  new value. */
    method GetNextSequenceValue(entity: string) returns (value: nat)
      requires Valid()
      modifies this
      ensures Valid() && Store.Inv(Abs())
      ensures (Abs(), value) == Store.NextSequenceValue(old(Abs()), entity)
      ensures counters == old(counters)[entity := value]
      ensures ideas == old(ideas)
    {
      // upsert: a counter that does not exist yet starts at 0
      var current := if entity in counters then counters[entity] else 0;
      value := current + 1;
      counters := counters[entity := value];
      Store.ConsistentInv(counters, ideas);
    }

    /** The scan behind `findOne({id})`: the position of the first
     *  document with that id, or none. */
    method IndexOf(id: int) returns (k: Option<nat>)
      ensures k.Some? ==> k.value < |ideas| && ideas[k.value].id == id
      ensures k.Some? ==> forall i :: 0 <= i < k.value ==> ideas[i].id != id
      ensures k.None? <==> forall i :: 0 <= i < |ideas| ==> ideas[i].id != id
    {
      var i := 0;
      while i < |ideas|
        invariant 0 <= i <= |ideas|
        invariant forall j :: 0 <= j < i ==> ideas[j].id != id
      {
        if ideas[i].id == id {
          return Some(i);
        }
        i := i + 1;
      }
      return None;
    }

    /** `find()`: the current contents. The store promises no order, so
     *  only the contents are stated. */
    method FindAll() returns (r: seq<Idea>)
      requires Valid()
      ensures multiset(r) == multiset(ideas)
      ensures |r| == |Abs().ideas|
      ensures forall x :: x in r <==> x in Abs().ideas.Values
    {
      r := ideas;
      Store.TableSize(ideas);
      Store.TableValues(ideas);
    }

    /** `findById`: the record with that id, or "Idea not found". */
    method FindById(id: int) returns (r: Result<Idea>)
      requires Valid()
      ensures r == Store.FindById(Abs(), id)
      ensures r.Ok? ==> r.value in ideas && r.value.id == id
      ensures r.NotFound? <==> forall i :: 0 <= i < |ideas| ==> ideas[i].id != id
    {
      var k := IndexOf(id);
      if k.None? {
        r := NotFound;
      } else {
        Store.TableAt(ideas, k.value);
        r := Ok(ideas[k.value]);
      }
    }

    /** `save`: draw the next `'ideas'` value and insert a record carrying
     *  it; the unique index accepts the insert because the id is new, and
     *  validation refuses it when the title or the description is empty,
     *  after the value was drawn. */
    method Save(dto: CreateIdeaDto) returns (r: SaveResult)
      requires Valid()
      modifies this
      ensures Valid() && Store.Inv(Abs())
      ensures (Abs(), r) == Store.Save(old(Abs()), dto)
      ensures Store.SeqOf(counters, IdeasEntity) == Store.SeqOf(old(counters), IdeasEntity) + 1
      ensures forall e :: e != IdeasEntity ==> Store.SeqOf(counters, e) == Store.SeqOf(old(counters), e)
      ensures r.Saved? <==> dto.title != "" && dto.description != ""
      ensures r.Saved? ==> r.idea == Idea(Store.SeqOf(old(counters), IdeasEntity) + 1, dto.title, dto.description)
      ensures r.Saved? ==> forall i :: 0 <= i < |old(ideas)| ==> old(ideas)[i].id != r.idea.id
      ensures r.Saved? ==> ideas == old(ideas) + [r.idea]
      ensures r.ValidationError? ==> ideas == old(ideas)
    {
      ghost var before := Abs();
      var newId := GetNextSequenceValue(IdeasEntity);
      ghost var drawn := Abs();
      var idea := Idea(newId, dto.title, dto.description);
      if PassesValidation(idea) {
        Store.ConsistentAppend(old(counters), ideas, idea);
        Store.TableAppend(ideas, idea);
        ideas := ideas + [idea];
        r := Saved(idea);
        assert Abs() == drawn.(ideas := drawn.ideas[newId := idea]);
        assert Store.Save(before, dto) == (Abs(), r);
      } else {
        r := ValidationError;
        assert Store.Save(before, dto) == (drawn, r);
      }
      Store.ConsistentInv(counters, ideas);
    }

    /** `update`: overwrite the fields the body supplies on the record with
     *  that id and return the post-update record, or "Idea not found". */
    method Update(id: int, dto: UpdateIdeaDto) returns (r: Result<Idea>)
      requires Valid()
      modifies this
      ensures Valid() && Store.Inv(Abs())
      ensures (Abs(), r) == Store.Update(old(Abs()), id, dto)
      ensures counters == old(counters)
      ensures r.NotFound? ==> ideas == old(ideas)
      ensures r.Ok? ==> exists k :: 0 <= k < |old(ideas)| && old(ideas)[k].id == id && ideas == old(ideas)[k := r.value]
    {
      var k := IndexOf(id);
      if k.None? {
        r := NotFound;
      } else {
        ghost var before := Abs();
        var updated := Store.ApplyUpdate(ideas[k.value], dto);
        Store.TableAt(ideas, k.value);
        Store.TableUpdateAt(ideas, k.value, updated);
        Store.ConsistentUpdateAt(counters, ideas, k.value, updated);
        ideas := ideas[k.value := updated];
        r := Ok(updated);
        assert Abs() == before.(ideas := before.ideas[id := updated]);
      }
      Store.ConsistentInv(counters, ideas);
    }

    /** `deleteAll`: remove every record; the counters stay. */
    method DeleteAll()
      requires Valid()
      modifies this
      ensures Valid() && Store.Inv(Abs())
      ensures Abs() == Store.DeleteAll(old(Abs()))
      ensures ideas == [] && counters == old(counters)
    {
      ideas := [];
      Store.ConsistentInv(counters, ideas);
    }

    /** `deleteById`: remove the record with that id, or "Idea not found". */
    method DeleteById(id: int) returns (r: Result<()>)
      requires Valid()
      modifies this
      ensures Valid() && Store.Inv(Abs())
      ensures (Abs(), r) == Store.DeleteById(old(Abs()), id)
      ensures counters == old(counters)
      ensures r.NotFound? ==> ideas == old(ideas)
      ensures r.Ok? ==> exists k :: 0 <= k < |old(ideas)| && old(ideas)[k].id == id && ideas == old(ideas)[..k] + old(ideas)[k + 1..]
    {
      var k := IndexOf(id);
      if k.None? {
        r := NotFound;
      } else {
        ghost var before := Abs();
        Store.TableAt(ideas, k.value);
        Store.TableRemoveAt(ideas, k.value);
        Store.ConsistentRemoveAt(counters, ideas, k.value);
        ideas := ideas[..k.value] + ideas[k.value + 1..];
        r := Ok(());
        assert Abs() == before.(ideas := before.ideas - {id});
      }
      Store.ConsistentInv(counters, ideas);
    }
  }
}
