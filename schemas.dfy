/**
 * The stored shapes: an idea record, the two request bodies, the tagged
 * outcome that replaces the thrown `Error('Idea not found')`, and the
 * outcome of inserting a new record.
 */
module Schemas {
  import opened Wrappers

  /** An idea document. `id` is required and unique; Mongo's own `_id`
   *  and `__v` are not part of the model. */
  datatype Idea = Idea(id: int, title: string, description: string)

  /** The body of a create request: both fields present. */
  datatype CreateIdeaDto = CreateIdeaDto(title: string, description: string)

  /** The body of an update request: each field may be absent. */
  datatype UpdateIdeaDto = UpdateIdeaDto(title: Option<string>, description: Option<string>)

  /** Outcome of a keyed operation: the value, or "Idea not found". */
  datatype Result<+T> = Ok(value: T) | NotFound

  /** Outcome of `save()` on a new document: the stored record, or the
   *  validation error that the schema's `required` check raises. */
  datatype SaveResult = Saved(idea: Idea) | ValidationError

  /** The schema marks `title` and `description` as required, and the
   *  required check on a string path rejects the empty string, so
   *  `save()` refuses a document where either is empty. `id` is a number
   *  and always passes. Updates run no validators. */
  predicate PassesValidation(idea: Idea) {
    idea.title != "" && idea.description != ""
  }

  /** The counter series that hands out idea ids. */
  const IdeasEntity: string := "ideas"
}
