/**
 * `IdeasService`: a thin layer that holds the repository it was built
 * with and nothing else. Each method calls the matching repository
 * method with the same arguments and hands back its result, or its
 * "Idea not found", unchanged; it assigns no id and checks nothing of
 * its own. Its contracts are therefore the repository's, and its frames
 * name only the repository.
 */
module Service {
  import opened Schemas
  import Store
  import opened Repository

  class IdeasService {
    /** The one reference the service holds. */
    const repository: IdeasRepository

    constructor (repository: IdeasRepository)
      ensures this.repository == repository
    {
      this.repository := repository;
    }

    /** `getAll`: what `findAll` returns, the empty list included. */
    method GetAll() returns (r: seq<Idea>)
      requires repository.Valid()
      ensures multiset(r) == multiset(repository.ideas)
      ensures |r| == |repository.Abs().ideas|
      ensures forall x :: x in r <==> x in repository.Abs().ideas.Values
    {
      r := repository.FindAll();
    }

    /** `getById`: the repository's record for the same id, or its
     *  not-found outcome. */
    method GetById(id: int) returns (r: Result<Idea>)
      requires repository.Valid()
      ensures r == Store.FindById(repository.Abs(), id)
      ensures r.Ok? ==> r.value in repository.ideas && r.value.id == id
    {
      r := repository.FindById(id);
    }

    /** `create`: the body goes to `save` as it is; the id comes from the
     *  repository, and the service checks nothing of its own, so a body
     *  with an empty field reaches `save` and is refused there. */
    method Create(dto: CreateIdeaDto) returns (r: SaveResult)
      requires repository.Valid()
      modifies repository
      ensures repository.Valid()
      ensures (repository.Abs(), r) == Store.Save(old(repository.Abs()), dto)
      ensures Store.SeqOf(repository.counters, IdeasEntity) == Store.SeqOf(old(repository.counters), IdeasEntity) + 1
      ensures forall e :: e != IdeasEntity ==> Store.SeqOf(repository.counters, e) == Store.SeqOf(old(repository.counters), e)
      ensures r.Saved? <==> dto.title != "" && dto.description != ""
      ensures r.Saved? ==> r.idea == Idea(Store.SeqOf(old(repository.counters), IdeasEntity) + 1, dto.title, dto.description)
      ensures r.Saved? ==> repository.ideas == old(repository.ideas) + [r.idea]
      ensures r.ValidationError? ==> repository.ideas == old(repository.ideas)
    {
      r := repository.Save(dto);
    }

    /** `updateById`: id and body, partial or not, go to `update` as they
     *  are; the post-update record or not-found comes back. */
    method UpdateById(id: int, dto: UpdateIdeaDto) returns (r: Result<Idea>)
      requires repository.Valid()
      modifies repository
      ensures repository.Valid()
      ensures (repository.Abs(), r) == Store.Update(old(repository.Abs()), id, dto)
      ensures r.NotFound? ==> repository.ideas == old(repository.ideas)
    {
      r := repository.Update(id, dto);
    }

    /** `deleteAll`: clears the ideas and leaves the counters. */
    method DeleteAll()
      requires repository.Valid()
      modifies repository
      ensures repository.Valid()
      ensures repository.Abs() == Store.DeleteAll(old(repository.Abs()))
    {
      repository.DeleteAll();
    }

    /** `deleteById`: the same id goes to the repository; its not-found
     *  comes back unchanged. */
    method DeleteById(id: int) returns (r: Result<()>)
      requires repository.Valid()
      modifies repository
      ensures repository.Valid()
      ensures (repository.Abs(), r) == Store.DeleteById(old(repository.Abs()), id)
      ensures r.NotFound? ==> repository.ideas == old(repository.ideas)
    {
      r := repository.DeleteById(id);
    }
  }
}
