/**
 * The comment record (types.ts, `IComment`).
 *
 * A request body is stored exactly as it arrives, so the same record stands
 * for a request body and for an element of the stored collection.  A field
 * the client left out is represented by its falsy value: the empty string
 * for the text fields and 0 for `postId`.
 */
module Comments {

  datatype Comment = Comment(
    id: string,
    name: string,
    email: string,
    body: string,
    postId: int
  )
}
