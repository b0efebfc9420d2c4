/**
 * The express application of comments-api.ts: the stored collection that
 * `loadComments` reads and `saveComments` overwrites, and the GET and POST
 * handlers on `/api/comments` as methods that read and update it.
 *
 * The file `mock-comments.json` is the field `file`; reading it back gives
 * what was last written (JSON encoding and disk I/O are not modelled).  Each
 * handler runs as one atomic step, and each is proved to take the step that
 * `Handlers.Handle` describes, so every lemma about `Handlers.Run` holds of
 * any sequence of calls.
 */
module Server {
  import opened Comments
  import opened Validation
  import opened Handlers

  class CommentsApi {
    /** The whole stored collection, in insertion order. */
    var file: seq<Comment>

    constructor (initial: seq<Comment>)
      ensures file == initial
    {
      file := initial;
    }

    /** Reads the whole collection. */
    method LoadComments() returns (comments: seq<Comment>)
      ensures comments == file
    {
      comments := file;
    }

    /** Overwrites the whole collection. */
    method SaveComments(data: seq<Comment>)
      modifies this
      ensures file == data
    {
      file := data;
    }

    /** GET: answers 200 with the stored collection as it is, and changes nothing. */
    method ListComments() returns (r: Response)
      ensures r == Response(Ok, Json(file))
      ensures Step(r, file) == Handle(file, ListRequest)
    {
      var comments := LoadComments();
      r := Response(Ok, Json(comments));
    }

    /**
     * POST: validates the body; on failure answers 400 with the validator's
     * message and leaves the collection alone; otherwise loads the
     * collection, pushes the body onto its end, saves it back whole and
     * answers 201 with a confirmation naming the client's id.
     */
    method CreateComment(body: Comment) returns (r: Response)
      modifies this
      ensures ValidateComment(body).Some? ==>
        r == Response(BadRequest, Text(ValidateComment(body).value)) && file == old(file)
      ensures ValidateComment(body).None? ==>
        r == Response(Created, Text(Confirmation(body.id))) && file == old(file) + [body]
      ensures Step(r, file) == Handle(old(file), CreateRequest(body))
    {
      var validationResult := ValidateComment(body);
      if validationResult.Some? {
        r := Response(BadRequest, Text(validationResult.value));
        return;
      }
      var id := body.id;
      var comments := LoadComments();
      comments := comments + [body];
      SaveComments(comments);
      r := Response(Created, Text(Confirmation(id)));
    }
  }

  /**
   * A client of the class: two posts of the same valid body and a list.
   * The list answer ends with both copies, after what was stored before.
   */
  method PostTwiceThenList(api: CommentsApi, body: Comment) returns (listed: Response)
    requires Complete(body)
    modifies api
    ensures listed == Response(Ok, Json(old(api.file) + [body, body]))
    ensures api.file == old(api.file) + [body, body]
  {
    var first := api.CreateComment(body);
    var second := api.CreateComment(body);
    assert api.file == old(api.file) + [body] + [body] == old(api.file) + [body, body];
    listed := api.ListComments();
  }
}
