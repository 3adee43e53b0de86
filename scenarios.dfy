/**
 * Clients of the service, each on a repository of its own over empty
 * collections, showing what the contracts above let a caller conclude.
 */
module Scenarios {
  import opened Wrappers
  import opened Schemas
  import opened Repository
  import opened Service

  /** A fresh service over empty collections. */
  method NewService() returns (service: IdeasService)
    ensures fresh(service.repository) && service.repository.Valid()
    ensures service.repository.counters == map[] && service.repository.ideas == []
  {
    var repository := new IdeasRepository(map[], []);
    service := new IdeasService(repository);
  }

  /** A created idea is found under the id it was given, with the title
   *  and description it was created with. */
  method CreateThenFind() returns (created: SaveResult, found: Result<Idea>)
    ensures created == Saved(Idea(1, "Idea 1", "Description 1"))
    ensures found == Ok(created.idea)
  {
    var service := NewService();
    created := service.Create(CreateIdeaDto("Idea 1", "Description 1"));
    found := service.GetById(created.idea.id);
  }

  /** Successive creates get 1, 2, 3. */
  method CreateThree() returns (a: SaveResult, b: SaveResult, c: SaveResult)
    ensures a.Saved? && b.Saved? && c.Saved?
    ensures a.idea.id == 1 && b.idea.id == 2 && c.idea.id == 3
  {
    var service := NewService();
    a := service.Create(CreateIdeaDto("Idea 1", "Description 1"));
    assert a.idea.id == 1;
    b := service.Create(CreateIdeaDto("Idea 2", "Description 2"));
    assert b.idea.id == 2;
    c := service.Create(CreateIdeaDto("Idea 3", "Description 3"));
  }

  /** The service passes an empty title on to `save`, where validation
   *  refuses it: nothing is stored, the id it drew is not found, and the
   *  next create gets the id after it. */
  method CreateWithEmptyTitle() returns (created: SaveResult, found: Result<Idea>, next: SaveResult)
    ensures created == ValidationError
    ensures found == NotFound
    ensures next == Saved(Idea(2, "Idea 2", "This is a new idea"))
  {
    var service := NewService();
    created := service.Create(CreateIdeaDto("", "This is a new idea"));
    found := service.GetById(1);
    next := service.Create(CreateIdeaDto("Idea 2", "This is a new idea"));
  }

  /** The same for an empty description. */
  method CreateWithEmptyDescription() returns (created: SaveResult, listed: seq<Idea>)
    ensures created == ValidationError
    ensures listed == []
  {
    var service := NewService();
    created := service.Create(CreateIdeaDto("New Idea", ""));
    listed := service.GetAll();
  }

  /** Updating only the title keeps the stored description, and updating
   *  only the description keeps the title. Updates run no validation, so
   *  an empty title is stored as given. */
  method PartialUpdates() returns (titled: Result<Idea>, described: Result<Idea>, emptied: Result<Idea>)
    ensures titled == Ok(Idea(1, "Title Only", "Existing Description"))
    ensures described == Ok(Idea(1, "Title Only", "Description Only"))
    ensures emptied == Ok(Idea(1, "", "Description Only"))
  {
    var service := NewService();
    var created := service.Create(CreateIdeaDto("Existing Title", "Existing Description"));
    titled := service.UpdateById(created.idea.id, UpdateIdeaDto(Some("Title Only"), None));
    described := service.UpdateById(created.idea.id, UpdateIdeaDto(None, Some("Description Only")));
    emptied := service.UpdateById(created.idea.id, UpdateIdeaDto(Some(""), None));
  }

  /** After deleting an idea, looking it up again fails with not-found. */
  method DeleteThenFind() returns (deleted: Result<()>, found: Result<Idea>)
    ensures deleted == Ok(())
    ensures found == NotFound
  {
    var service := NewService();
    var created := service.Create(CreateIdeaDto("Idea 1", "Description 1"));
    deleted := service.DeleteById(created.idea.id);
    found := service.GetById(created.idea.id);
  }

  /** After deleting everything the list is empty, and the next create
   *  continues the sequence instead of starting again at 1. */
  method DeleteAllThenCreate() returns (listed: seq<Idea>, next: SaveResult)
    ensures listed == []
    ensures next.Saved? && next.idea.id == 3
  {
    var service := NewService();
    var first := service.Create(CreateIdeaDto("Idea 1", "Description 1"));
    var second := service.Create(CreateIdeaDto("Idea 2", "Description 2"));
    service.DeleteAll();
    listed := service.GetAll();
    next := service.Create(CreateIdeaDto("Idea 3", "Description 3"));
  }

  /** Keyed calls on an id that was never handed out all fail with
   *  not-found and leave the collection as it was. */
  method MissingId() returns (found: Result<Idea>, updated: Result<Idea>, deleted: Result<()>, listed: seq<Idea>)
    ensures found == NotFound && updated == NotFound && deleted == NotFound
    ensures |listed| == 1
  {
    var service := NewService();
    var created := service.Create(CreateIdeaDto("Idea 1", "Description 1"));
    found := service.GetById(999);
    updated := service.UpdateById(999, UpdateIdeaDto(Some("Non-existent Idea"), None));
    deleted := service.DeleteById(999);
    listed := service.GetAll();
  }
}
