/**
 * The GET and POST handlers on `/api/comments` (comments-api.ts) as a state
 * machine over the stored collection, the contents of `mock-comments.json`.
 *
 * `Handle` is one request; `Run` is a sequence of requests, each handled as
 * one atomic step.  The lemmas state what the handlers promise: a rejected
 * body changes nothing, an accepted one is appended at the end, nothing is
 * ever removed or reordered, and a list request sees every body accepted
 * before it, in the order it was posted.
 */
module Handlers {
  import opened Wrappers
  import opened Comments
  import opened Validation

  const Ok: int := 200
  const Created: int := 201
  const BadRequest: int := 400

  /** A request on `/api/comments`: GET, or POST with its JSON body. */
  datatype Request = ListRequest | CreateRequest(body: Comment)

  /** What a response carries: a plain-text message or the JSON collection. */
  datatype Payload = Text(text: string) | Json(comments: seq<Comment>)

  datatype Response = Response(status: int, payload: Payload)

  /** The response to one request and the stored collection after it. */
  datatype Step = Step(response: Response, file: seq<Comment>)

  /** The responses to a sequence of requests and the stored collection after the last. */
  datatype Trace = Trace(responses: seq<Response>, file: seq<Comment>)

  const ConfirmationPrefix: string := "Comment id:"
  const ConfirmationSuffix: string := " has been added!"

  /** The 201 confirmation, naming the client's id. */
  function Confirmation(id: string): string
  {
    ConfirmationPrefix + id + ConfirmationSuffix
  }

  /** Reads the id back out of a confirmation message; `None` for any other text. */
  function ConfirmedId(message: string): Option<string>
  {
    var p, q := |ConfirmationPrefix|, |ConfirmationSuffix|;
    if |message| >= p + q && message[..p] == ConfirmationPrefix && message[|message| - q..] == ConfirmationSuffix
    then Some(message[p..|message| - q])
    else None
  }

  /** The confirmation names exactly the id the client supplied. */
  lemma ConfirmationNamesId(id: string)
    ensures ConfirmedId(Confirmation(id)) == Some(id)
  {
    var m := Confirmation(id);
    var p, q := |ConfirmationPrefix|, |ConfirmationSuffix|;
    assert m[..p] == ConfirmationPrefix;
    assert m[|m| - q..] == ConfirmationSuffix;
    assert m[p..|m| - q] == id;
  }

  /** One request handled as one atomic load-modify-save step. */
  function Handle(file: seq<Comment>, req: Request): (s: Step)
    ensures file <= s.file
    ensures s.response.status == Created <==> req.CreateRequest? && Complete(req.body)
    ensures s.file == if s.response.status == Created then file + [req.body] else file
  {
    match req
    case ListRequest => Step(Response(Ok, Json(file)), file)
    case CreateRequest(body) =>
      match ValidateComment(body)
      case Some(message) => Step(Response(BadRequest, Text(message)), file)
      case None => Step(Response(Created, Text(Confirmation(body.id))), file + [body])
  }

  /**
   * A body that fails validation is answered 400 with exactly the
   * validator's message (the one of its first failing field), and the
   * stored collection is left as it was.
   */
  lemma CreateRejected(file: seq<Comment>, body: Comment, f: Field)
    requires Missing(body, f) && forall g: Field :: Rank(g) < Rank(f) ==> !Missing(body, g)
    ensures Handle(file, CreateRequest(body)) == Step(Response(BadRequest, Text(Message(f))), file)
  {
    FirstFailureWins(body, f);
  }

  /**
   * A body that passes validation is answered 201 with a confirmation
   * naming its id; the collection grows by exactly one, every earlier
   * element keeps its position and value, and the body is the new last
   * element.
   */
  lemma CreateAccepted(file: seq<Comment>, body: Comment)
    requires Complete(body)
    ensures var s := Handle(file, CreateRequest(body));
      && s.response.status == Created
      && s.response.payload.Text?
      && ConfirmedId(s.response.payload.text) == Some(body.id)
      && |s.file| == |file| + 1
      && (forall i :: 0 <= i < |file| ==> s.file[i] == file[i])
      && s.file[|file|] == body
  {
    ConfirmationNamesId(body.id);
  }

  /** There is no duplicate check: a valid body already stored is accepted and stored again. */
  lemma NoDuplicateCheck(file: seq<Comment>, body: Comment)
    requires Complete(body) && body in file
    ensures Handle(file, CreateRequest(body)).response.status == Created
    ensures multiset(Handle(file, CreateRequest(body)).file)[body] == multiset(file)[body] + 1
  {
  }

  /** Handles the requests in order, threading the stored collection through. */
  function Run(file: seq<Comment>, reqs: seq<Request>): (t: Trace)
    ensures |t.responses| == |reqs|
    ensures file <= t.file
    decreases |reqs|
  {
    if reqs == [] then Trace([], file)
    else
      var s := Handle(file, reqs[0]);
      var t := Run(s.file, reqs[1..]);
      Trace([s.response] + t.responses, t.file)
  }

  /** The bodies among `reqs` that pass validation, in the order they were posted. */
  function Accepted(reqs: seq<Request>): seq<Comment>
  {
    if reqs == [] then []
    else (if reqs[0].CreateRequest? && Complete(reqs[0].body) then [reqs[0].body] else []) + Accepted(reqs[1..])
  }

  /** The number of 201 responses. */
  function CreatedCount(responses: seq<Response>): nat
  {
    if responses == [] then 0
    else (if responses[0].status == Created then 1 else 0) + CreatedCount(responses[1..])
  }

  /** Accepting is compositional: the bodies accepted from two batches are those of each, in order. */
  lemma {:induction false} AcceptedConcat(first: seq<Request>, second: seq<Request>)
    ensures Accepted(first + second) == Accepted(first) + Accepted(second)
    decreases |first|
  {
    if first == [] {
      assert first + second == second;
    } else {
      assert (first + second)[0] == first[0];
      assert (first + second)[1..] == first[1..] + second;
      AcceptedConcat(first[1..], second);
    }
  }

  /** One request appends exactly the bodies it has accepted. */
  lemma HandleAppendsAccepted(file: seq<Comment>, req: Request)
    ensures Handle(file, req).file == file + Accepted([req])
  {
    assert [req][1..] == [];
  }

  /** After any requests the collection is the old one with the accepted bodies appended, in order. */
  lemma {:induction false} RunAppendsAccepted(file: seq<Comment>, reqs: seq<Request>)
    ensures Run(file, reqs).file == file + Accepted(reqs)
    decreases |reqs|
  {
    if reqs != [] {
      var s := Handle(file, reqs[0]);
      RunAppendsAccepted(s.file, reqs[1..]);
    }
  }

  /** The collection grows by exactly one element per 201 response. */
  lemma {:induction false} GrowthIsCreatedCount(file: seq<Comment>, reqs: seq<Request>)
    ensures |Run(file, reqs).file| == |file| + CreatedCount(Run(file, reqs).responses)
    decreases |reqs|
  {
    if reqs != [] {
      var s := Handle(file, reqs[0]);
      GrowthIsCreatedCount(s.file, reqs[1..]);
      assert ([s.response] + Run(s.file, reqs[1..]).responses)[1..] == Run(s.file, reqs[1..]).responses;
    }
  }

  /**
   * A list request returns the stored collection as it is at that moment:
   * the initial collection followed by every body accepted before it, in
   * insertion order.
   */
  lemma {:induction false} ListSeesEarlierPosts(file: seq<Comment>, reqs: seq<Request>, i: nat)
    requires i < |reqs| && reqs[i].ListRequest?
    ensures Run(file, reqs).responses[i] == Response(Ok, Json(file + Accepted(reqs[..i])))
    decreases |reqs|
  {
    var s := Handle(file, reqs[0]);
    var t := Run(s.file, reqs[1..]);
    assert Run(file, reqs) == Trace([s.response] + t.responses, t.file);
    if i == 0 {
      assert reqs[..0] == [];
      assert file + Accepted(reqs[..0]) == file;
    } else {
      assert Run(file, reqs).responses[i] == t.responses[i - 1];
      ListSeesEarlierPosts(s.file, reqs[1..], i - 1);
      AcceptedBeforeStep(file, reqs, i);
    }
  }

  /** What is stored before request `i` is what the first request stored, plus what the next `i - 1` accepted. */
  lemma AcceptedBeforeStep(file: seq<Comment>, reqs: seq<Request>, i: nat)
    requires 0 < i <= |reqs|
    ensures file + Accepted(reqs[..i]) == Handle(file, reqs[0]).file + Accepted(reqs[1..][..i - 1])
  {
    var later := reqs[1..][..i - 1];
    assert reqs[..i] == [reqs[0]] + later;
    AcceptedConcat([reqs[0]], later);
    HandleAppendsAccepted(file, reqs[0]);
  }

  /** Running two batches one after the other is running their concatenation. */
  lemma {:induction false} RunConcat(file: seq<Comment>, first: seq<Request>, second: seq<Request>)
    ensures var t := Run(file, first);
      Run(file, first + second) == Trace(t.responses + Run(t.file, second).responses, Run(t.file, second).file)
    decreases |first|
  {
    if first == [] {
      assert first + second == second;
    } else {
      var s := Handle(file, first[0]);
      assert (first + second)[0] == first[0];
      assert (first + second)[1..] == first[1..] + second;
      RunConcat(s.file, first[1..], second);
      var rest := Run(s.file, first[1..]);
      assert [s.response] + (rest.responses + Run(rest.file, second).responses)
          == ([s.response] + rest.responses) + Run(rest.file, second).responses;
    }
  }

  /** Posting the same valid body twice leaves two equal entries at the end of the collection. */
  lemma DuplicatePostsBothStored(file: seq<Comment>, body: Comment)
    requires Complete(body)
    ensures var t := Run(file, [CreateRequest(body), CreateRequest(body)]);
      && t.file == file + [body, body]
      && t.responses[0] == t.responses[1] == Response(Created, Text(Confirmation(body.id)))
  {
    var reqs := [CreateRequest(body), CreateRequest(body)];
    var once := file + [body];
    assert Handle(file, reqs[0]) == Step(Response(Created, Text(Confirmation(body.id))), once);
    assert reqs[1..] == [CreateRequest(body)] && reqs[1..][1..] == [];
    assert Run(once, reqs[1..]) == Trace([Response(Created, Text(Confirmation(body.id)))], once + [body]);
    assert once + [body] == file + [body, body];
  }
}
