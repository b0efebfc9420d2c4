/**
 * `validateComment` (comments-api.ts): an ordered list of truthiness tests,
 * first failure wins.
 *
 * `ValidateComment` follows the source's `switch (true)` case by case.  The
 * partner definitions describe the same rule independently: `Missing` says
 * when one field fails, `Precedence` gives the order of the fields, and
 * `FirstFailure` walks a rule list and reports the first field that fails.
 */
module Validation {
  import opened Wrappers
  import opened Comments

  /** The fields the validator tests. */
  datatype Field = Name | Body | Email | Id | PostId

  /** The order in which the validator tests the fields. */
  const Precedence: seq<Field> := [Name, Body, Email, Id, PostId]

  /** JavaScript falsiness of one field: an empty or absent string, a `postId` of 0. */
  predicate Missing(c: Comment, f: Field)
  {
    match f
    case Name => c.name == ""
    case Body => c.body == ""
    case Email => c.email == ""
    case Id => c.id == ""
    case PostId => c.postId == 0
  }

  /** The message reported for a failing field. */
  function Message(f: Field): string
  {
    match f
    case Name => "Name is required"
    case Body => "Body is required"
    case Email => "Email is required"
    case Id => "Id is required"
    case PostId => "PostId is required"
  }

  /** The position of a field in `Precedence`. */
  function Rank(f: Field): (k: nat)
    ensures k < |Precedence| && Precedence[k] == f
  {
    match f
    case Name => 0
    case Body => 1
    case Email => 2
    case Id => 3
    case PostId => 4
  }

  /** Every field passes its test. */
  predicate Complete(c: Comment)
  {
    forall f: Field :: !Missing(c, f)
  }

  /**
   * The validator.  `None` is the source's `null` (the body is acceptable);
   * `Some(m)` carries the message of the first failing field.
   */
  function ValidateComment(c: Comment): (r: Option<string>)
    ensures r.None? <==> Complete(c)
    ensures r.Some? ==> exists f: Field :: r.value == Message(f) && Missing(c, f)
    ensures r.Some? ==> r.value != ""
  {
    CompleteFieldByField(c);
    if c.name == "" then assert Missing(c, Name); Some("Name is required")
    else if c.body == "" then assert Missing(c, Body); Some("Body is required")
    else if c.email == "" then assert Missing(c, Email); Some("Email is required")
    else if c.id == "" then assert Missing(c, Id); Some("Id is required")
    else if c.postId == 0 then assert Missing(c, PostId); Some("PostId is required")
    else None
  }

  /** `Complete` unfolded over the five fields. */
  lemma CompleteFieldByField(c: Comment)
    ensures Complete(c) <==>
      !Missing(c, Name) && !Missing(c, Body) && !Missing(c, Email) && !Missing(c, Id) && !Missing(c, PostId)
  {
    if !Missing(c, Name) && !Missing(c, Body) && !Missing(c, Email) && !Missing(c, Id) && !Missing(c, PostId) {
      forall f: Field ensures !Missing(c, f) {
        match f
        case Name =>
        case Body =>
        case Email =>
        case Id =>
        case PostId =>
      }
    }
  }

  /** A rule list evaluated in order: the message of the first field of `rules` that fails. */
  function FirstFailure(c: Comment, rules: seq<Field>): Option<string>
  {
    if rules == [] then None
    else if Missing(c, rules[0]) then Some(Message(rules[0]))
    else FirstFailure(c, rules[1..])
  }

  /** No two fields share a message, so a message names its field. */
  lemma MessageNamesField(f: Field, g: Field)
    ensures Message(f) == Message(g) <==> f == g
  {
  }

  /** The validator is the rule list `Precedence` evaluated in order. */
  lemma {:induction false} ValidateIsRuleList(c: Comment)
    ensures ValidateComment(c) == FirstFailure(c, Precedence)
  {
    var tail4, tail3, tail2, tail1 := [PostId], [Id, PostId], [Email, Id, PostId], [Body, Email, Id, PostId];
    assert tail4[1..] == [] && tail3[1..] == tail4 && tail2[1..] == tail3;
    assert tail1[1..] == tail2 && Precedence[1..] == tail1;
    assert FirstFailure(c, tail4) == if c.postId == 0 then Some("PostId is required") else None;
    assert FirstFailure(c, tail3) == if c.id == "" then Some("Id is required") else FirstFailure(c, tail4);
    assert FirstFailure(c, tail2) == if c.email == "" then Some("Email is required") else FirstFailure(c, tail3);
    assert FirstFailure(c, tail1) == if c.body == "" then Some("Body is required") else FirstFailure(c, tail2);
  }

  /**
   * First failure wins: the validator reports field `f` exactly when `f`
   * fails and every field tested before it passes, whatever the later
   * fields hold.
   */
  lemma FirstFailureWins(c: Comment, f: Field)
    ensures ValidateComment(c) == Some(Message(f))
        <==> Missing(c, f) && forall g: Field :: Rank(g) < Rank(f) ==> !Missing(c, g)
  {
    if ValidateComment(c) == Some(Message(f)) {
      forall g: Field | Rank(g) < Rank(f) ensures !Missing(c, g) {
        MessageNamesField(f, g);
      }
    }
  }

  /** An empty name is reported first, whatever the other fields hold. */
  lemma NameCheckedFirst(c: Comment)
    requires c.name == ""
    ensures ValidateComment(c) == Some("Name is required")
  {
    FirstFailureWins(c, Name);
  }

  /** A `postId` of 0 counts as missing once every other field is present. */
  lemma ZeroPostIdIsMissing(c: Comment)
    requires c.name != "" && c.body != "" && c.email != "" && c.id != ""
    requires c.postId == 0
    ensures ValidateComment(c) == Some("PostId is required")
  {
    FirstFailureWins(c, PostId);
  }
}
