/**
 Policies, then truncation, in the order of main.py: what the fold keeps, how folds compose, and what reaches the
 provider.
 */
module Pipeline {
  import opened Prelude
  import opened Truncation
  import opened Guardrails

  /** What is handed on: refused with a reason, or the messages and whether they were truncated. */
  datatype Handed = Denied(reason: string) | Passed(messages: seq<Message>, truncated: bool)

  /** The messages an allowed request continues with; an empty list of modified messages is taken for none. */
  function Clean(e: Evaluation, ms: seq<Message>): seq<Message> {
    if e.modified.Some? && e.modified.value != [] then e.modified.value else ms
  }

  /** A refusal without a reason gets a general one. */
  function Process(ps: seq<Policy>, model: string, enc: Encoder, truncation: bool, maxTokens: int, ms: seq<Message>): Handed
  {
    var e := EvaluateRequest(ps, model, ms);
    if !e.allowed then
      Denied(if e.reason == None || e.reason == Some("") then "Blocked by content policy" else e.reason.value)
    else
      var clean := Clean(e, ms);
      if truncation then
        var (result, truncated) := Truncate(enc, clean, maxTokens);
        Passed(result, truncated)
      else Passed(clean, false)
  }

  // ----- The fold -----

  /** Rejection is absorbing: whatever policies follow, nothing changes any more. */
  lemma RejectionIsAbsorbing(ps: seq<Policy>, qs: seq<Policy>, model: string, r: Review)
    requires Evaluate(ps, model, r).rejected.Some?
    ensures Evaluate(ps + qs, model, r) == Evaluate(ps, model, r)
  {
    EvaluateConcat(ps, qs, model, r);
  }

  /** Evaluating P then Q is evaluating P ++ Q. */
  lemma {:induction false} EvaluateConcat(ps: seq<Policy>, qs: seq<Policy>, model: string, r: Review)
    ensures Evaluate(ps + qs, model, r) == Evaluate(qs, model, Evaluate(ps, model, r))
    decreases |ps|
  {
    hide Apply;
    if ps == [] {
      assert ps + qs == qs;
    } else if r.rejected == None {
      assert (ps + qs)[1..] == ps[1..] + qs;
      EvaluateConcat(ps[1..], qs, model, Apply(ps[0], model, r));
    }
  }

  // ----- The conversation is kept -----

  /** Same number of messages, with the same roles in the same order, and the same contents where not text. */
  ghost predicate SameShape(xs: seq<Message>, ys: seq<Message>) {
    && |xs| == |ys|
    && forall i :: 0 <= i < |xs| ==>
         xs[i].role == ys[i].role && (xs[i].content == ys[i].content || (xs[i].content.Text? && ys[i].content.Text?))
  }

  lemma SameShapeTransitive(xs: seq<Message>, ys: seq<Message>, zs: seq<Message>)
    requires SameShape(xs, ys) && SameShape(ys, zs)
    ensures SameShape(xs, zs)
  {
  }

  lemma {:induction false} WithoutPromptKeepsOthers(ms: seq<Message>, prompt: string)
    ensures Others(WithoutPrompt(ms, prompt)) == Others(ms)
  {
    if ms != [] {
      var n := |ms| - 1;
      WithoutPromptKeepsOthers(ms[..n], prompt);
      var w := WithoutPrompt(ms[..n], prompt);
      assert w + [] == w && Others(w) + [] == Others(w);
      WithRoleConcat(WithoutPrompt(ms[..n], prompt), [ms[n]], false);
      OneRole(ms[n]);
    }
  }

  lemma OneRole(m: Message)
    ensures Others([m]) == if m.role == "system" then [] else [m]
    ensures Systems([m]) == if m.role == "system" then [m] else []
  {
    assert [m][..0] == [];
    assert WithRole([], false) + [m] == [m];
    assert WithRole([], true) + [m] == [m];
  }

  lemma {:induction false} RedactKeepsShape(ms: seq<Message>, redact: string -> string)
    ensures SameShape(Others(ms), Others(RedactAll(ms, redact)))
    ensures Systems(RedactAll(ms, redact)) == RedactAll(Systems(ms), redact)
  {
    if ms != [] {
      var n := |ms| - 1;
      RedactKeepsShape(ms[..n], redact);
      var r := RedactAll(ms, redact);
      assert r[..n] == RedactAll(ms[..n], redact);
      if ms[n].role == "system" {
        RedactAppend(Systems(ms[..n]), ms[n], redact);
      }
    }
  }

  lemma RedactAppend(ms: seq<Message>, m: Message, redact: string -> string)
    ensures RedactAll(ms + [m], redact) == RedactAll(ms, redact) + [RedactMessage(m, redact)]
  {
    assert (ms + [m])[..|ms + [m]|-1] == ms;
  }

  lemma HeadPrompt(prompt: string, ms: seq<Message>)
    ensures Others([SystemMessage(prompt)] + ms) == Others(ms)
    ensures Systems([SystemMessage(prompt)] + ms) == [SystemMessage(prompt)] + Systems(ms)
  {
    WithRoleConcat([SystemMessage(prompt)], ms, false);
    WithRoleConcat([SystemMessage(prompt)], ms, true);
    OneRole(SystemMessage(prompt));
    assert [] + Others(ms) == Others(ms);
  }

  lemma OthersOfOthers(ms: seq<Message>)
    ensures Others(Others(ms)) == Others(ms) && Systems(Others(ms)) == []
  {
    WithRoleIsAll(ms, false);
    WithRoleOfAll(Others(ms), false);
  }

  /** The policy may change the text of a message that is not a system message. */
  predicate MayRedact(p: Policy) {
    p.TopicBlock? && p.action == Redact
  }

  lemma ApplyKeepsOthers(p: Policy, model: string, r: Review)
    requires !MayRedact(p)
    ensures Others(Apply(p, model, r).messages) == Others(r.messages)
  {
    hide WithRole, WithoutPrompt, AllText, Threatens;
    match p
    case PromptInject(_, prompt) =>
      WithoutPromptKeepsOthers(r.messages, prompt);
      HeadPrompt(prompt, WithoutPrompt(r.messages, prompt));
    case PromptEnforce(_, prompt, allowClient) =>
      OthersOfOthers(r.messages);
      HeadPrompt(prompt, if allowClient then r.messages else Others(r.messages));
    case TopicBlock(_, _, _, _, _) =>
    case ModelRestrict(_, _, _, _) =>
    case MaxOutputTokens(_, _) =>
    case ThreatDetect(_, _, _, _, _, _, _, _) =>
    case OtherPolicy(_) =>
  }

  lemma ApplyKeepsConversation(p: Policy, model: string, r: Review)
    ensures SameShape(Others(r.messages), Others(Apply(p, model, r).messages))
  {
    hide SameShape, WithRole, AllText;
    SameShapeReflexive(Others(r.messages));
    if MayRedact(p) {
      RedactKeepsShape(r.messages, p.redact);
    } else {
      hide Apply;
      ApplyKeepsOthers(p, model, r);
    }
  }

  /** Without a redacting policy the conversation is kept word for word. */
  lemma {:induction false} ConversationIsUntouched(ps: seq<Policy>, model: string, r: Review)
    requires forall i :: 0 <= i < |ps| ==> !MayRedact(ps[i])
    ensures Others(Evaluate(ps, model, r).messages) == Others(r.messages)
    decreases |ps|
  {
    hide Apply, MayRedact, WithRole;
    if ps != [] && r.rejected == None {
      assert !MayRedact(ps[0]);
      ApplyKeepsOthers(ps[0], model, r);
      ConversationIsUntouched(ps[1..], model, Apply(ps[0], model, r));
    }
  }

  /** Whatever the policies, the request keeps the number, the order and the roles of its non-system messages. */
  lemma {:induction false} ConversationIsKept(ps: seq<Policy>, model: string, r: Review)
    ensures SameShape(Others(r.messages), Others(Evaluate(ps, model, r).messages))
    decreases |ps|
  {
    hide Apply, SameShape;
    if ps == [] || r.rejected.Some? {
      SameShapeReflexive(Others(r.messages));
    } else {
      var s := Apply(ps[0], model, r);
      ApplyKeepsConversation(ps[0], model, r);
      ConversationIsKept(ps[1..], model, s);
      SameShapeTransitive(Others(r.messages), Others(s.messages), Others(Evaluate(ps, model, r).messages));
    }
  }

  lemma SameShapeReflexive(xs: seq<Message>)
    ensures SameShape(xs, xs)
  {
  }

  // ----- Which system prompt reaches the provider -----

  /** The policy leaves a system prompt at the head of the messages where it is, and as it is. */
  predicate SparesPrompt(p: Policy, prompt: string) {
    && (p.PromptInject? ==> p.prompt == "" || p.prompt == prompt)
    && !p.PromptEnforce?
    && (p.TopicBlock? && p.action == Redact ==> p.redact(prompt) == prompt)
  }

  ghost predicate AllSpare(ps: seq<Policy>, prompt: string) {
    forall i :: 0 <= i < |ps| ==> SparesPrompt(ps[i], prompt)
  }

  predicate HeadIs(ms: seq<Message>, prompt: string) {
    ms != [] && ms[0] == SystemMessage(prompt)
  }

  lemma ApplySparesHead(p: Policy, model: string, r: Review, prompt: string)
    requires SparesPrompt(p, prompt) && HeadIs(r.messages, prompt)
    ensures HeadIs(Apply(p, model, r).messages, prompt)
  {
  }

  lemma {:induction false} EvaluateSparesHead(ps: seq<Policy>, model: string, r: Review, prompt: string)
    requires AllSpare(ps, prompt) && HeadIs(r.messages, prompt)
    ensures HeadIs(Evaluate(ps, model, r).messages, prompt)
    decreases |ps|
  {
    hide Apply, HeadIs, SparesPrompt;
    if ps != [] && r.rejected == None {
      assert SparesPrompt(ps[0], prompt);
      ApplySparesHead(ps[0], model, r, prompt);
      assert forall i :: 0 <= i < |ps[1..]| ==> ps[1..][i] == ps[i+1];
      EvaluateSparesHead(ps[1..], model, Apply(ps[0], model, r), prompt);
    }
  }

  /** The policy puts this prompt at the head. */
  predicate Writes(p: Policy, prompt: string) {
    prompt != "" && (p.PromptInject? || p.PromptEnforce?) && p.prompt == prompt
  }

  /**
   The last policy that writes a system prompt decides what the provider sees first: unless a later policy rejects
   the request, its prompt heads the messages handed on, for any encoder and any token limit.
   */
  lemma LastPromptHeadsTheRequest(before: seq<Policy>, p: Policy, after: seq<Policy>, prompt: string, model: string,
                                  enc: Encoder, truncation: bool, maxTokens: int, ms: seq<Message>)
    requires Writes(p, prompt) && AllSpare(after, prompt)
    ensures var h := Process(before + [p] + after, model, enc, truncation, maxTokens, ms);
            h.Passed? ==> HeadIs(h.messages, prompt)
  {
    hide Apply, Truncate;
    var ps := before + [p] + after;
    var r := Evaluate(ps, model, Fresh(ms));
    if r.rejected == None {
      PromptHeadsTheFold(before, p, after, prompt, model, ms);
      SystemHeadSurvives(enc, r.messages, maxTokens);
    }
  }

  lemma PromptHeadsTheFold(before: seq<Policy>, p: Policy, after: seq<Policy>, prompt: string, model: string, ms: seq<Message>)
    requires Writes(p, prompt) && AllSpare(after, prompt)
    requires Evaluate(before + [p] + after, model, Fresh(ms)).rejected == None
    ensures HeadIs(Evaluate(before + [p] + after, model, Fresh(ms)).messages, prompt)
  {
    hide Apply, SparesPrompt, HeadIs;
    EvaluateConcat(before + [p], after, model, Fresh(ms));
    EvaluateConcat(before, [p], model, Fresh(ms));
    var r := Evaluate(before, model, Fresh(ms));
    var s := Evaluate([p], model, r);
    EvaluateOne(p, model, r);
    assert s.rejected == None by { RejectedStays(after, model, s); }
    assert r.rejected == None;
    WriterHeads(p, prompt, model, r);
    EvaluateSparesHead(after, model, s, prompt);
  }

  lemma EvaluateOne(p: Policy, model: string, r: Review)
    ensures Evaluate([p], model, r) == if r.rejected.Some? then r else Apply(p, model, r)
  {
    hide Apply;
    assert [p][1..] == [];
  }

  lemma RejectedStays(ps: seq<Policy>, model: string, r: Review)
    ensures r.rejected.Some? ==> Evaluate(ps, model, r) == r
  {
    hide Apply;
  }

  lemma WriterHeads(p: Policy, prompt: string, model: string, r: Review)
    requires Writes(p, prompt)
    ensures HeadIs(Apply(p, model, r).messages, prompt)
  {
  }

  /** Enforcing a prompt without client prompts leaves that prompt as the only system message. */
  lemma {:induction false} EnforcedPromptIsAlone(ps: seq<Policy>, model: string, r: Review, prompt: string)
    requires AllSpare(ps, prompt) && HeadIs(r.messages, prompt) && Systems(r.messages) == [SystemMessage(prompt)]
    ensures Systems(Evaluate(ps, model, r).messages) == [SystemMessage(prompt)]
    decreases |ps|
  {
    hide Apply, HeadIs, SparesPrompt, Systems;
    if ps != [] && r.rejected == None {
      assert SparesPrompt(ps[0], prompt);
      ApplySparesHead(ps[0], model, r, prompt);
      ApplyKeepsAlone(ps[0], model, r, prompt);
      assert forall i :: 0 <= i < |ps[1..]| ==> ps[1..][i] == ps[i+1];
      EnforcedPromptIsAlone(ps[1..], model, Apply(ps[0], model, r), prompt);
    }
  }

  lemma {:induction false} WithoutOnlyPrompt(ms: seq<Message>, prompt: string)
    requires forall i :: 0 <= i < |Systems(ms)| ==> Systems(ms)[i] == SystemMessage(prompt)
    ensures Systems(WithoutPrompt(ms, prompt)) == []
  {
    if ms != [] {
      var n := |ms| - 1;
      if ms[n].role == "system" {
        assert Systems(ms) == Systems(ms[..n]) + [ms[n]];
        assert Systems(ms)[|Systems(ms)|-1] == ms[n];
      }
      forall i | 0 <= i < |Systems(ms[..n])| ensures Systems(ms[..n])[i] == SystemMessage(prompt) {
        assert Systems(ms)[i] == Systems(ms[..n])[i];
      }
      WithoutOnlyPrompt(ms[..n], prompt);
      var w := WithoutPrompt(ms[..n], prompt);
      assert w + [] == w && Systems(w) + [] == Systems(w);
      WithRoleConcat(WithoutPrompt(ms[..n], prompt), [ms[n]], true);
      OneRole(ms[n]);
    }
  }

  lemma ApplyKeepsAlone(p: Policy, model: string, r: Review, prompt: string)
    requires SparesPrompt(p, prompt) && Systems(r.messages) == [SystemMessage(prompt)]
    ensures Systems(Apply(p, model, r).messages) == [SystemMessage(prompt)]
  {
    if p.PromptInject? && p.prompt != "" {
      WithoutOnlyPrompt(r.messages, prompt);
      HeadPrompt(prompt, WithoutPrompt(r.messages, prompt));
      assert [SystemMessage(prompt)] + [] == [SystemMessage(prompt)];
    } else if p.TopicBlock? && p.action == Redact {
      RedactKeepsShape(r.messages, p.redact);
      assert RedactAll([SystemMessage(prompt)], p.redact) == [SystemMessage(prompt)];
    }
  }

  /** An enforced prompt is the only system message the provider sees, for any encoder and any token limit. */
  lemma OnlyEnforcedPromptIsSeen(before: seq<Policy>, p: Policy, after: seq<Policy>, prompt: string, model: string,
                                 enc: Encoder, truncation: bool, maxTokens: int, ms: seq<Message>)
    requires Writes(p, prompt) && p.PromptEnforce? && !p.allowClient && AllSpare(after, prompt)
    ensures var h := Process(before + [p] + after, model, enc, truncation, maxTokens, ms);
            h.Passed? ==> Systems(h.messages) == [SystemMessage(prompt)]
  {
    hide Apply, Truncate, HeadIs, SparesPrompt, Systems;
    var ps := before + [p] + after;
    var r := Evaluate(before, model, Fresh(ms));
    var s := Evaluate([p], model, r);
    EvaluateConcat(before + [p], after, model, Fresh(ms));
    EvaluateConcat(before, [p], model, Fresh(ms));
    EvaluateOne(p, model, r);
    RejectedStays(after, model, s);
    var t := Evaluate(ps, model, Fresh(ms));
    if t.rejected == None {
      WriterHeads(p, prompt, model, r);
      EnforceLeavesOne(p, prompt, model, r);
      EvaluateSparesHead(after, model, s, prompt);
      EnforcedPromptIsAlone(after, model, s, prompt);
      TruncationKeepsSystems(enc, t.messages, maxTokens);
      HeadNotEmpty(t.messages, prompt);
    }
  }

  lemma HeadNotEmpty(ms: seq<Message>, prompt: string)
    requires HeadIs(ms, prompt)
    ensures ms != []
  {
  }

  lemma EnforceLeavesOne(p: Policy, prompt: string, model: string, r: Review)
    requires Writes(p, prompt) && p.PromptEnforce? && !p.allowClient
    ensures Systems(Apply(p, model, r).messages) == [SystemMessage(prompt)]
  {
    OthersOfOthers(r.messages);
    HeadPrompt(prompt, Others(r.messages));
    assert [SystemMessage(prompt)] + [] == [SystemMessage(prompt)];
  }

  // ----- When the fold's messages are used -----

  /** The policy puts some system prompt at the head. */
  predicate WritesSome(p: Policy) {
    (p.PromptInject? || p.PromptEnforce?) && p.prompt != ""
  }

  /** The policy drops all system messages and adds none. */
  predicate Clears(p: Policy) {
    p.PromptEnforce? && p.prompt == "" && !p.allowClient
  }

  ghost predicate NoneWrites(ps: seq<Policy>) {
    forall i :: 0 <= i < |ps| ==> !WritesSome(ps[i])
  }

  /** Some policy drops all system messages, and none after it writes one. */
  ghost predicate ClearedLast(ps: seq<Policy>) {
    exists i :: 0 <= i < |ps| && Clears(ps[i]) && NoneWrites(ps[i+1..])
  }

  lemma NoneWritesFirst(ps: seq<Policy>)
    requires ps != []
    ensures NoneWrites(ps) <==> !WritesSome(ps[0]) && NoneWrites(ps[1..])
  {
    hide WritesSome;
    if !WritesSome(ps[0]) && NoneWrites(ps[1..]) {
      forall i | 0 <= i < |ps| ensures !WritesSome(ps[i]) {
        if i > 0 {
          assert ps[i] == ps[1..][i-1];
        }
      }
    }
  }

  lemma ClearedLastFirst(ps: seq<Policy>)
    requires ps != []
    ensures ClearedLast(ps) <==> (Clears(ps[0]) && NoneWrites(ps[1..])) || ClearedLast(ps[1..])
  {
    hide Clears, NoneWrites;
    if ClearedLast(ps) {
      var i :| 0 <= i < |ps| && Clears(ps[i]) && NoneWrites(ps[i+1..]);
      if i > 0 {
        assert ps[1..][i-1] == ps[i] && ps[1..][(i-1)+1..] == ps[i+1..];
      }
    }
    if ClearedLast(ps[1..]) {
      var i :| 0 <= i < |ps[1..]| && Clears(ps[1..][i]) && NoneWrites(ps[1..][i+1..]);
      assert ps[1..][i+1..] == ps[i+2..];
      assert Clears(ps[i+1]) && NoneWrites(ps[(i+1)+1..]);
    }
  }

  lemma ApplyEmpties(p: Policy, model: string, r: Review)
    ensures Apply(p, model, r).messages == [] <==>
            !WritesSome(p) && (r.messages == [] || (Clears(p) && Others(r.messages) == []))
  {
    hide WithoutPrompt, AllText, Threatens;
    if r.messages == [] {
      OthersOfNothing();
    }
  }

  lemma OthersOfNothing()
    ensures Others([]) == []
  {
  }

  /** What an evaluation without rejection leaves is empty exactly when the policies and the messages say so. */
  lemma {:induction false} FoldIsEmptyExactly(ps: seq<Policy>, model: string, r: Review)
    requires Evaluate(ps, model, r).rejected == None
    ensures Evaluate(ps, model, r).messages == [] <==>
            Others(r.messages) == [] && ((r.messages == [] && NoneWrites(ps)) || ClearedLast(ps))
    decreases |ps|
  {
    hide Apply, WithRole, WritesSome, Clears, SameShape;
    OthersOfNothing();
    if ps != [] {
      RejectedStays(ps, model, r);
      var s := Apply(ps[0], model, r);
      FoldIsEmptyExactly(ps[1..], model, s);
      ApplyKeepsConversation(ps[0], model, r);
      SameLength(Others(r.messages), Others(s.messages));
      ApplyEmpties(ps[0], model, r);
      hide NoneWrites, ClearedLast;
      NoneWritesFirst(ps);
      ClearedLastFirst(ps);
      ClearsWritesNot(ps[0]);
    }
  }

  lemma SameLength(xs: seq<Message>, ys: seq<Message>)
    requires SameShape(xs, ys)
    ensures xs == [] <==> ys == []
  {
  }

  lemma ClearsWritesNot(p: Policy)
    ensures Clears(p) ==> !WritesSome(p)
  {
  }

  /**
   The messages an allowed request continues with are those of the fold, except for a request of system messages only
   under policies the last word of which is to drop them: then the fold is empty, an empty list is taken for no change,
   and the original messages go on.
   */
  lemma FoldIsUsedExactly(ps: seq<Policy>, model: string, ms: seq<Message>)
    requires EvaluateRequest(ps, model, ms).allowed
    ensures var r := Evaluate(ps, model, Fresh(ms));
            && (r.messages == [] <==> Others(ms) == [] && ((ms == [] && NoneWrites(ps)) || ClearedLast(ps)))
            && (Clean(EvaluateRequest(ps, model, ms), ms) == r.messages
                <==> !(ms != [] && Others(ms) == [] && ClearedLast(ps)))
  {
    hide Apply, WithRole, NoneWrites, ClearedLast;
    FoldIsEmptyExactly(ps, model, Fresh(ms));
  }

  /** Such a request exists: only system messages, under a policy that drops client prompts and adds none. */
  lemma DroppedPromptsComeBack(model: string, text: string, name: string)
    ensures var ms := [SystemMessage(text)];
            var e := EvaluateRequest([PromptEnforce(name, "", false)], model, ms);
            e.allowed && e.modified == Some([]) && Clean(e, ms) == ms
  {
    var ms := [SystemMessage(text)];
    OneRole(ms[0]);
    EvaluateOne(PromptEnforce(name, "", false), model, Fresh(ms));
  }

  // ----- Policies and truncation together -----

  /**
   What is handed on fits the limit exactly when the system messages it starts from do, keeps all of them, and of the
   conversation keeps a suffix, in the shape it came in.
   */
  lemma HandedOnExactly(ps: seq<Policy>, model: string, enc: Encoder, maxTokens: int, ms: seq<Message>)
    requires EvaluateRequest(ps, model, ms).allowed
    ensures var clean := Clean(EvaluateRequest(ps, model, ms), ms);
            var h := Process(ps, model, enc, true, maxTokens, ms);
            && h.Passed?
            && (h.truncated <==> Estimate(enc, clean) > maxTokens)
            && (Estimate(enc, h.messages) <= maxTokens <==> Estimate(enc, Systems(clean)) <= maxTokens)
            && Systems(h.messages) == Systems(clean)
            && |Others(h.messages)| <= |Others(ms)|
            && SameShape(Newest(Others(ms), |Others(h.messages)|), Others(h.messages))
  {
    hide Apply, Truncate, Estimate, Systems, WithRole;
    var clean := Clean(EvaluateRequest(ps, model, ms), ms);
    ConversationIsKept(ps, model, Fresh(ms));
    assert SameShape(Others(ms), Others(clean));
    TruncationIsOptimal(enc, clean, maxTokens);
    ResultFitsExactly(enc, clean, maxTokens);
    TruncationKeepsSystems(enc, clean, maxTokens);
  }
}
