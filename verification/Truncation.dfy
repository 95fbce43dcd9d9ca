/**
 Token estimates and context-window truncation, llm_proxy.py.
 */
module Truncation {
  import opened Prelude

  /** One element of a content list: a dictionary with a text, or anything else. */
  datatype Part = TextPart(text: string) | OtherPart

  /** A message's content: a string (also when absent), a list of parts, or neither. */
  datatype Content = Text(text: string) | Parts(parts: seq<Part>) | NoText

  datatype Message = Message(role: string, content: Content)

  const PER_MESSAGE := 4

  /** The tokenizer, when it is installed and does not fail: the length of the encoded text. */
  type Encoder = string -> Option<nat>

  function EstimateTokens(enc: Encoder, text: string): nat {
    if text == "" then 0
    else
      match enc(text)
      case Some(n) => n
      case None => Max(|text| / 4, 1)
  }

  function PartsTokens(enc: Encoder, parts: seq<Part>): nat {
    if parts == [] then 0 else
      var n := |parts| - 1;
      PartsTokens(enc, parts[..n]) + match parts[n] case TextPart(t) => EstimateTokens(enc, t) case OtherPart => 0
  }

  function MessageTokens(enc: Encoder, m: Message): nat {
    PER_MESSAGE +
    match m.content
    case Text(s) => EstimateTokens(enc, s)
    case Parts(ps) => PartsTokens(enc, ps)
    case NoText => 0
  }

  function Estimate(enc: Encoder, ms: seq<Message>): nat {
    if ms == [] then 0 else Estimate(enc, ms[..|ms|-1]) + MessageTokens(enc, ms[|ms|-1])
  }

  /** The messages whose role is, or is not, "system", in order. */
  function WithRole(ms: seq<Message>, system: bool): seq<Message> {
    if ms == [] then [] else
      var n := |ms| - 1;
      WithRole(ms[..n], system) + if (ms[n].role == "system") == system then [ms[n]] else []
  }

  function Systems(ms: seq<Message>): seq<Message> {
    WithRole(ms, true)
  }

  function Others(ms: seq<Message>): seq<Message> {
    WithRole(ms, false)
  }

  /** The greedy choice: from the newest back, as long as the next one still fits. */
  function Keep(enc: Encoder, others: seq<Message>, budget: int): seq<Message> {
    if others == [] then [] else
      var n := |others| - 1;
      var t := MessageTokens(enc, others[n]);
      if t > budget then [] else Keep(enc, others[..n], budget - t) + [others[n]]
  }

  function Truncate(enc: Encoder, ms: seq<Message>, maxTokens: int): (seq<Message>, bool) {
    if Estimate(enc, ms) <= maxTokens then (ms, false)
    else (Systems(ms) + Keep(enc, Others(ms), maxTokens - Estimate(enc, Systems(ms))), true)
  }

  // ----- The program -----

  method EstimateMessagesTokens(enc: Encoder, messages: seq<Message>) returns (total: nat)
    ensures total == Estimate(enc, messages)
  {
    total := 0;
    var i := 0;
    while i < |messages|
      invariant 0 <= i <= |messages| && total == Estimate(enc, messages[..i])
    {
      assert messages[..i+1][..i] == messages[..i];
      match messages[i].content {
        case Text(s) =>
          total := total + EstimateTokens(enc, s);
        case Parts(parts) =>
          var j := 0;
          while j < |parts|
            invariant 0 <= j <= |parts|
            invariant total == Estimate(enc, messages[..i]) + PartsTokens(enc, parts[..j])
          {
            assert parts[..j+1][..j] == parts[..j];
            match parts[j] {
              case TextPart(t) => total := total + EstimateTokens(enc, t);
              case OtherPart =>
            }
            j := j + 1;
          }
          assert parts[..j] == parts;
        case NoText =>
      }
      total := total + PER_MESSAGE;
      i := i + 1;
    }
    assert messages[..i] == messages;
  }

  /** From the newest back, until the budget is exceeded. */
  method KeepNewest(enc: Encoder, others: seq<Message>, budget: int) returns (kept: seq<Message>)
    ensures kept == Keep(enc, others, budget)
  {
    kept := [];
    var used := 0;
    var i := |others|;
    assert others[..i] == others;
    while i > 0
      invariant 0 <= i <= |others|
      invariant Keep(enc, others, budget) == Keep(enc, others[..i], budget - used) + kept
    {
      var msgTokens := MessageTokens(enc, others[i-1]);
      assert others[..i][..i-1] == others[..i-1];
      if used + msgTokens > budget {
        break;
      }
      kept := [others[i-1]] + kept;
      used := used + msgTokens;
      i := i - 1;
    }
    assert Keep(enc, others[..i], budget - used) == [];
    assert [] + kept == kept;
  }

  method TruncateMessages(enc: Encoder, messages: seq<Message>, maxTokens: int)
    returns (result: seq<Message>, wasTruncated: bool)
    ensures (result, wasTruncated) == Truncate(enc, messages, maxTokens)
  {
    var current := EstimateMessagesTokens(enc, messages);
    if current <= maxTokens {
      return messages, false;
    }
    var systemMsgs, otherMsgs := Systems(messages), Others(messages);
    var systemTokens := EstimateMessagesTokens(enc, systemMsgs);
    var budget := maxTokens - systemTokens;
    if budget <= 0 {
      KeepNothing(enc, otherMsgs, budget);
      assert systemMsgs + [] == systemMsgs;
      return systemMsgs, true;
    }
    var kept := KeepNewest(enc, otherMsgs, budget);
    result := systemMsgs + kept;
    wasTruncated := |result| < |messages|;
    DroppedSomething(enc, messages, maxTokens);
  }

  // ----- Sums and selections -----

  lemma {:induction false} EstimateConcat(enc: Encoder, xs: seq<Message>, ys: seq<Message>)
    ensures Estimate(enc, xs + ys) == Estimate(enc, xs) + Estimate(enc, ys)
    decreases |ys|
  {
    if ys == [] {
      assert xs + ys == xs;
    } else {
      assert (xs + ys)[..|xs + ys|-1] == xs + ys[..|ys|-1];
      EstimateConcat(enc, xs, ys[..|ys|-1]);
    }
  }

  lemma {:induction false} RolesSplit(enc: Encoder, ms: seq<Message>)
    ensures Estimate(enc, ms) == Estimate(enc, Systems(ms)) + Estimate(enc, Others(ms))
    ensures |ms| == |Systems(ms)| + |Others(ms)|
  {
    if ms != [] {
      var n := |ms| - 1;
      RolesSplit(enc, ms[..n]);
      EstimateConcat(enc, Systems(ms[..n]), if ms[n].role == "system" then [ms[n]] else []);
      EstimateConcat(enc, Others(ms[..n]), if ms[n].role == "system" then [] else [ms[n]]);
      EstimateOne(enc, ms[n]);
    }
  }

  lemma EstimateOne(enc: Encoder, m: Message)
    ensures Estimate(enc, [m]) == MessageTokens(enc, m)
  {
    assert [m][..0] == [];
  }

  lemma {:induction false} WithRoleConcat(xs: seq<Message>, ys: seq<Message>, system: bool)
    ensures WithRole(xs + ys, system) == WithRole(xs, system) + WithRole(ys, system)
    decreases |ys|
  {
    if ys == [] {
      assert xs + ys == xs;
    } else {
      assert (xs + ys)[..|xs + ys|-1] == xs + ys[..|ys|-1];
      WithRoleConcat(xs, ys[..|ys|-1], system);
    }
  }

  /** Every message has the given kind of role. */
  ghost predicate AllRole(ms: seq<Message>, system: bool) {
    forall i :: 0 <= i < |ms| ==> (ms[i].role == "system") == system
  }

  lemma {:induction false} WithRoleIsAll(ms: seq<Message>, system: bool)
    ensures AllRole(WithRole(ms, system), system)
  {
    if ms != [] {
      WithRoleIsAll(ms[..|ms|-1], system);
    }
  }

  lemma {:induction false} WithRoleOfAll(ms: seq<Message>, system: bool)
    requires AllRole(ms, system)
    ensures WithRole(ms, system) == ms && WithRole(ms, !system) == []
  {
    if ms != [] {
      WithRoleOfAll(ms[..|ms|-1], system);
    }
  }

  // ----- The greedy choice is optimal -----

  lemma KeepNothing(enc: Encoder, others: seq<Message>, budget: int)
    requires budget <= 0
    ensures Keep(enc, others, budget) == []
  {
  }

  /** The last `n` messages. */
  function Newest(ms: seq<Message>, n: nat): seq<Message>
    requires n <= |ms|
  {
    ms[|ms| - n..]
  }

  lemma NewestStep(enc: Encoder, ms: seq<Message>, n: nat)
    requires 0 < n <= |ms|
    ensures Estimate(enc, Newest(ms, n)) == Estimate(enc, Newest(ms[..|ms|-1], n - 1)) + MessageTokens(enc, ms[|ms|-1])
    ensures Newest(ms, n) == Newest(ms[..|ms|-1], n - 1) + [ms[|ms|-1]]
  {
    assert Newest(ms, n)[..n-1] == Newest(ms[..|ms|-1], n - 1);
  }

  /** What is kept is the longest suffix that fits the budget: a suffix fits exactly when it is no longer. */
  lemma {:induction false} KeepIsLongest(enc: Encoder, others: seq<Message>, budget: int)
    ensures |Keep(enc, others, budget)| <= |others|
    ensures Keep(enc, others, budget) == Newest(others, |Keep(enc, others, budget)|)
    ensures forall n: nat :: 0 < n <= |others| ==>
              (Estimate(enc, Newest(others, n)) <= budget <==> n <= |Keep(enc, others, budget)|)
  {
    if others != [] {
      var last := |others| - 1;
      var t := MessageTokens(enc, others[last]);
      if t <= budget {
        KeepIsLongest(enc, others[..last], budget - t);
        NewestStep(enc, others, |Keep(enc, others, budget)|);
      }
      forall n: nat | 0 < n <= |others|
        ensures Estimate(enc, Newest(others, n)) <= budget <==> n <= |Keep(enc, others, budget)|
      {
        NewestStep(enc, others, n);
        if n == 1 {
          assert Newest(others[..last], 0) == [];
        }
      }
    }
  }

  lemma DroppedSomething(enc: Encoder, ms: seq<Message>, maxTokens: int)
    requires Estimate(enc, ms) > maxTokens && Estimate(enc, Systems(ms)) < maxTokens
    ensures |Truncate(enc, ms, maxTokens).0| < |ms|
  {
    RolesSplit(enc, ms);
    var others := Others(ms);
    KeepIsLongest(enc, others, maxTokens - Estimate(enc, Systems(ms)));
    assert Newest(others, |others|) == others;
  }

  // ----- Theorems -----

  /**
   Truncation is optimal.  It happens exactly when the estimate exceeds the limit; then the result is all system
   messages in order followed by the longest suffix of the other messages that still fits.
   */
  lemma TruncationIsOptimal(enc: Encoder, ms: seq<Message>, maxTokens: int)
    ensures var (result, truncated) := Truncate(enc, ms, maxTokens);
            && (truncated <==> Estimate(enc, ms) > maxTokens)
            && (!truncated ==> result == ms)
            && (truncated ==>
                  var k := |result| - |Systems(ms)|;
                  && 0 <= k <= |Others(ms)|
                  && result == Systems(ms) + Newest(Others(ms), k)
                  && forall n: nat :: 0 < n <= |Others(ms)| ==>
                       (Estimate(enc, Systems(ms) + Newest(Others(ms), n)) <= maxTokens <==> n <= k))
  {
    var (result, truncated) := Truncate(enc, ms, maxTokens);
    if truncated {
      KeepIsLongest(enc, Others(ms), maxTokens - Estimate(enc, Systems(ms)));
      forall n: nat | 0 < n <= |Others(ms)|
        ensures Estimate(enc, Systems(ms) + Newest(Others(ms), n)) ==
                Estimate(enc, Systems(ms)) + Estimate(enc, Newest(Others(ms), n))
      {
        EstimateConcat(enc, Systems(ms), Newest(Others(ms), n));
      }
    }
  }

  /** The result fits the limit exactly when the system messages alone do. */
  lemma ResultFitsExactly(enc: Encoder, ms: seq<Message>, maxTokens: int)
    ensures Estimate(enc, Truncate(enc, ms, maxTokens).0) <= maxTokens <==> Estimate(enc, Systems(ms)) <= maxTokens
  {
    RolesSplit(enc, ms);
    var budget := maxTokens - Estimate(enc, Systems(ms));
    var kept := Keep(enc, Others(ms), budget);
    EstimateConcat(enc, Systems(ms), kept);
    KeepIsLongest(enc, Others(ms), budget);
    if kept != [] {
      assert Estimate(enc, Newest(Others(ms), |kept|)) <= budget;
    }
  }

  lemma SplitBack(systems: seq<Message>, rest: seq<Message>)
    requires AllRole(systems, true) && AllRole(rest, false)
    ensures Systems(systems + rest) == systems && Others(systems + rest) == rest
  {
    hide WithRole, AllRole;
    WithRoleOfAll(systems, true);
    WithRoleOfAll(rest, false);
    WithRoleConcat(systems, rest, true);
    WithRoleConcat(systems, rest, false);
    assert systems + [] == systems && [] + rest == rest;
  }

  lemma SuffixHasRole(ms: seq<Message>, n: nat, system: bool)
    requires n <= |ms| && AllRole(ms, system)
    ensures AllRole(Newest(ms, n), system)
  {
  }

  /** No system message is lost, and of the others a suffix is left. */
  lemma TruncationKeepsSystems(enc: Encoder, ms: seq<Message>, maxTokens: int)
    ensures var result := Truncate(enc, ms, maxTokens).0;
            && Systems(result) == Systems(ms)
            && |Others(result)| <= |Others(ms)| && Others(result) == Newest(Others(ms), |Others(result)|)
  {
    hide Keep, WithRole, AllRole, Estimate;
    if Estimate(enc, ms) > maxTokens {
      var budget := maxTokens - Estimate(enc, Systems(ms));
      var kept := Keep(enc, Others(ms), budget);
      KeepIsLongest(enc, Others(ms), budget);
      WithRoleIsAll(ms, true);
      WithRoleIsAll(ms, false);
      SuffixHasRole(Others(ms), |kept|, false);
      SplitBack(Systems(ms), kept);
    } else {
      assert Newest(Others(ms), |Others(ms)|) == Others(ms);
    }
  }

  /** Truncating again with the same limit changes nothing more. */
  lemma TruncationIsIdempotent(enc: Encoder, ms: seq<Message>, maxTokens: int)
    ensures var once := Truncate(enc, ms, maxTokens).0; Truncate(enc, once, maxTokens).0 == once
  {
    var once := Truncate(enc, ms, maxTokens).0;
    ResultFitsExactly(enc, ms, maxTokens);
    if Estimate(enc, Systems(ms)) > maxTokens {
      RolesSplit(enc, ms);
      KeepNothing(enc, Others(ms), maxTokens - Estimate(enc, Systems(ms)));
      assert once == Systems(ms);
      WithRoleIsAll(ms, true);
      WithRoleOfAll(once, true);
    }
  }

  /** A system message at the head is still at the head, whatever the limit. */
  lemma SystemHeadSurvives(enc: Encoder, ms: seq<Message>, maxTokens: int)
    requires ms != [] && ms[0].role == "system"
    ensures var result := Truncate(enc, ms, maxTokens).0; result != [] && result[0] == ms[0]
  {
    FirstSystem(ms);
  }

  lemma {:induction false} FirstSystem(ms: seq<Message>)
    requires ms != [] && ms[0].role == "system"
    ensures Systems(ms) != [] && Systems(ms)[0] == ms[0]
  {
    if |ms| == 1 {
      assert ms[..0] == [];
      assert WithRole(ms[..0], true) == [];
      assert WithRole(ms, true) == [] + [ms[0]];
    } else {
      FirstSystem(ms[..|ms|-1]);
    }
  }
}
