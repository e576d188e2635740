/**
 The part of zod's parsing semantics the registration schema relies on:
 the three-way parse status, `.or` (a union of options), and `zod.string()`
 followed by a chain of checks.
 */
module Zod {
  import opened Regex

  /**
   Outcome of parsing one value against one schema. `Dirty` carries the
   messages of non-fatal issues (failed refinements and string checks) in
   the order they were raised; `Aborted` is a fatal issue such as a value of
   the wrong type.
   */
  datatype Status = Valid | Dirty(issues: seq<string>) | Aborted

  /** zod's default message for a union none of whose options applies. */
  const InvalidInputMsg: string := "Invalid input"

  /**
   `a.or(b)`: the options are tried in order; the first valid one wins,
   otherwise the first dirty one is reported, otherwise the union aborts.
   */
  function Union(options: seq<Status>): (r: Status)
    ensures r.Valid? <==> exists i :: 0 <= i < |options| && options[i].Valid?
    ensures r.Aborted? <==> forall i :: 0 <= i < |options| ==> options[i].Aborted?
    ensures r.Dirty? ==>
      exists i :: 0 <= i < |options| && options[i] == r &&
        forall j :: 0 <= j < i ==> options[j].Aborted?
  {
    if |options| == 0 then Aborted
    else
      var rest := Union(options[1..]);
      match options[0]
      case Valid => Valid
      case Dirty(_) => if rest.Valid? then Valid else options[0]
      case Aborted => rest
  }

  /** `Union` of two options, spelled out. */
  lemma UnionOfTwo(a: Status, b: Status)
    ensures Union([a, b]) ==
      if a.Valid? || b.Valid? then Valid
      else if a.Dirty? then a
      else b
  {
  }

  /** The messages a status reports; an aborted union reports one `invalid_union` issue. */
  function Issues(st: Status): (msgs: seq<string>)
    ensures msgs == [] <==> st.Valid? || st == Dirty([])
  {
    match st
    case Valid => []
    case Dirty(issues) => issues
    case Aborted => [InvalidInputMsg]
  }

  /** A check chained after `zod.string()`, with its custom message. */
  datatype StringCheck =
    | MinLength(min: nat, message: string)     // `.min(min, message)`
    | DigitsRegex(count: nat, message: string) // `.regex(/^\d{count}$/, message)`
    | EmailFormat(message: string)             // `.email(message)`

  /**
   Whether `s` passes check `c`. zod's email grammar is not part of this
   model: it is the parameter `isEmail`.
   */
  predicate CheckPasses(c: StringCheck, s: string, isEmail: string -> bool) {
    match c
    case MinLength(min, _) => |s| >= min
    case DigitsRegex(count, _) => MatchDigits(s, count)
    case EmailFormat(_) => isEmail(s)
  }

  /**
   The positions from `from` on of the checks `s` fails, in increasing
   order. The three ensures determine the result: exactly the failing
   positions, each once, sorted.
   */
  function FailingChecks(s: string, checks: seq<StringCheck>, isEmail: string -> bool, from: nat): (idx: seq<nat>)
    requires from <= |checks|
    ensures forall k :: 0 <= k < |idx| ==>
      from <= idx[k] < |checks| && !CheckPasses(checks[idx[k]], s, isEmail)
    ensures forall i :: from <= i < |checks| && !CheckPasses(checks[i], s, isEmail) ==> i in idx
    ensures forall k, l :: 0 <= k < l < |idx| ==> idx[k] < idx[l]
    decreases |checks| - from
  {
    if from == |checks| then []
    else
      var head: seq<nat> := if CheckPasses(checks[from], s, isEmail) then [] else [from];
      var rest := FailingChecks(s, checks, isEmail, from + 1);
      FailingChecksStep(s, checks, isEmail, from, head, rest);
      head + rest
  }

  /** One step of `FailingChecks`: position `from`, if it fails, before the later failing positions. */
  lemma FailingChecksStep(s: string, checks: seq<StringCheck>, isEmail: string -> bool, from: nat,
                          head: seq<nat>, rest: seq<nat>)
    requires from < |checks|
    requires head == if CheckPasses(checks[from], s, isEmail) then [] else [from]
    requires forall k :: 0 <= k < |rest| ==>
      from + 1 <= rest[k] < |checks| && !CheckPasses(checks[rest[k]], s, isEmail)
    requires forall i :: from + 1 <= i < |checks| && !CheckPasses(checks[i], s, isEmail) ==> i in rest
    requires forall k, l :: 0 <= k < l < |rest| ==> rest[k] < rest[l]
    ensures forall k :: 0 <= k < |head + rest| ==>
      from <= (head + rest)[k] < |checks| && !CheckPasses(checks[(head + rest)[k]], s, isEmail)
    ensures forall i :: from <= i < |checks| && !CheckPasses(checks[i], s, isEmail) ==> i in head + rest
    ensures forall k, l :: 0 <= k < l < |head + rest| ==> (head + rest)[k] < (head + rest)[l]
  {
    var all := head + rest;
    forall k | 0 <= k < |all|
      ensures from <= all[k] < |checks| && !CheckPasses(checks[all[k]], s, isEmail)
    {
      if k >= |head| {
        assert all[k] == rest[k - |head|];
      }
    }
    forall i | from <= i < |checks| && !CheckPasses(checks[i], s, isEmail)
      ensures i in all
    {
      if i == from {
        assert all[0] == from;
      } else {
        var k :| 0 <= k < |rest| && rest[k] == i;
        assert all[|head| + k] == i;
      }
    }
    forall k, l | 0 <= k < l < |all|
      ensures all[k] < all[l]
    {
      assert all[l] == rest[l - |head|];
      if k >= |head| {
        assert all[k] == rest[k - |head|];
      }
    }
  }

  /** The messages of the checks from `from` on that `s` fails, taking the checks one at a time. */
  function MessagesFrom(s: string, checks: seq<StringCheck>, isEmail: string -> bool, from: nat): seq<string>
    requires from <= |checks|
    decreases |checks| - from
  {
    if from == |checks| then []
    else
      var head := if CheckPasses(checks[from], s, isEmail) then [] else [checks[from].message];
      head + MessagesFrom(s, checks, isEmail, from + 1)
  }

  /** Walking the chain check by check yields the messages at the failing positions, in order. */
  lemma {:induction false} MessagesFromFailing(s: string, checks: seq<StringCheck>, isEmail: string -> bool, from: nat)
    requires from <= |checks|
    ensures |MessagesFrom(s, checks, isEmail, from)| == |FailingChecks(s, checks, isEmail, from)|
    ensures forall k :: 0 <= k < |MessagesFrom(s, checks, isEmail, from)| ==>
      MessagesFrom(s, checks, isEmail, from)[k] == checks[FailingChecks(s, checks, isEmail, from)[k]].message
    decreases |checks| - from
  {
    if from < |checks| {
      MessagesFromFailing(s, checks, isEmail, from + 1);
      var idx := FailingChecks(s, checks, isEmail, from);
      var rest := FailingChecks(s, checks, isEmail, from + 1);
      var m := MessagesFrom(s, checks, isEmail, from);
      var mr := MessagesFrom(s, checks, isEmail, from + 1);
      if CheckPasses(checks[from], s, isEmail) {
        assert idx == rest && m == mr;
      } else {
        MessagesFromStep(checks, from, rest, mr);
      }
    }
  }

  /** Prepending a failing position and its message keeps positions and messages in step. */
  lemma MessagesFromStep(checks: seq<StringCheck>, from: nat, rest: seq<nat>, mr: seq<string>)
    requires from < |checks|
    requires forall k :: 0 <= k < |rest| ==> rest[k] < |checks|
    requires |mr| == |rest|
    requires forall k :: 0 <= k < |mr| ==> mr[k] == checks[rest[k]].message
    ensures |[checks[from].message] + mr| == |[from] + rest|
    ensures forall k :: 0 <= k < |[checks[from].message] + mr| ==>
      ([checks[from].message] + mr)[k] == checks[([from] + rest)[k]].message
  {
    var m := [checks[from].message] + mr;
    var idx := [from] + rest;
    forall k | 0 <= k < |m|
      ensures m[k] == checks[idx[k]].message
    {
      if k > 0 {
        assert m[k] == mr[k - 1] && idx[k] == rest[k - 1];
      }
    }
  }

  /**
   The messages of the checks `s` fails, in chain order: the k-th message
   belongs to the k-th failing check.
   */
  function FailedMessages(s: string, checks: seq<StringCheck>, isEmail: string -> bool): (msgs: seq<string>)
    ensures msgs == [] <==> forall i :: 0 <= i < |checks| ==> CheckPasses(checks[i], s, isEmail)
    ensures |msgs| == |FailingChecks(s, checks, isEmail, 0)| <= |checks|
    ensures forall k :: 0 <= k < |msgs| ==>
      msgs[k] == checks[FailingChecks(s, checks, isEmail, 0)[k]].message
    ensures forall i :: 0 <= i < |checks| && !CheckPasses(checks[i], s, isEmail) ==> checks[i].message in msgs
  {
    MessagesFromFailing(s, checks, isEmail, 0);
    FailedMessagesFacts(s, checks, isEmail, FailingChecks(s, checks, isEmail, 0), MessagesFrom(s, checks, isEmail, 0));
    MessagesFrom(s, checks, isEmail, 0)
  }

  /** The facts `FailedMessages` states, proved from those of `FailingChecks`. */
  lemma FailedMessagesFacts(s: string, checks: seq<StringCheck>, isEmail: string -> bool,
                            idx: seq<nat>, msgs: seq<string>)
    requires forall k :: 0 <= k < |idx| ==> idx[k] < |checks| && !CheckPasses(checks[idx[k]], s, isEmail)
    requires forall i :: 0 <= i < |checks| && !CheckPasses(checks[i], s, isEmail) ==> i in idx
    requires forall k, l :: 0 <= k < l < |idx| ==> idx[k] < idx[l]
    requires |msgs| == |idx|
    requires forall k :: 0 <= k < |msgs| ==> msgs[k] == checks[idx[k]].message
    ensures msgs == [] <==> forall i :: 0 <= i < |checks| ==> CheckPasses(checks[i], s, isEmail)
    ensures |msgs| <= |checks|
    ensures forall i :: 0 <= i < |checks| && !CheckPasses(checks[i], s, isEmail) ==> checks[i].message in msgs
  {
    IncreasingBelowIsShort(idx, |checks|);
    if msgs != [] {
      assert !CheckPasses(checks[idx[0]], s, isEmail);
    }
    forall i | 0 <= i < |checks| && !CheckPasses(checks[i], s, isEmail)
      ensures checks[i].message in msgs
    {
      var k :| 0 <= k < |idx| && idx[k] == i;
      assert msgs[k] == checks[i].message;
    }
  }

  /** A strictly increasing sequence of numbers below `n` has at most `n` elements. */
  lemma {:induction false} IncreasingBelowIsShort(idx: seq<nat>, n: nat)
    requires forall k :: 0 <= k < |idx| ==> idx[k] < n
    requires forall k, l :: 0 <= k < l < |idx| ==> idx[k] < idx[l]
    ensures |idx| <= n
  {
    if |idx| > 0 {
      var last := idx[|idx| - 1];
      IncreasingBelowIsShort(idx[..|idx| - 1], last);
    }
  }

  /** `FailedMessages` of a chain of two checks, spelled out. */
  lemma FailedMessagesOfPair(s: string, a: StringCheck, b: StringCheck, isEmail: string -> bool)
    ensures FailedMessages(s, [a, b], isEmail) ==
      (if CheckPasses(a, s, isEmail) then [] else [a.message]) +
      (if CheckPasses(b, s, isEmail) then [] else [b.message])
  {
    assert MessagesFrom(s, [a, b], isEmail, 2) == [];
    assert MessagesFrom(s, [a, b], isEmail, 1) == if CheckPasses(b, s, isEmail) then [] else [b.message];
  }

  /**
   `zod.string()` followed by `checks`, applied to a string: every check
   runs and each failure is non-fatal, so the value is valid exactly when
   all checks pass and otherwise reports every failing message.
   */
  function StringSchema(s: string, checks: seq<StringCheck>, isEmail: string -> bool): (r: Status)
    ensures !r.Aborted?
    ensures r.Valid? <==> forall i :: 0 <= i < |checks| ==> CheckPasses(checks[i], s, isEmail)
    ensures r.Dirty? ==> r.issues == FailedMessages(s, checks, isEmail) && 1 <= |r.issues| <= |checks|
  {
    var failed := FailedMessages(s, checks, isEmail);
    if failed == [] then Valid else Dirty(failed)
  }
}
