/**
 What the policies do to a request, said without the evaluation itself: which one refuses it and why, which of them left
 a record, what each makes of the messages, and which text they look at.
 */
module PolicyOutcomes {
  import opened Prelude
  import opened Truncation
  import opened Guardrails
  import opened Pipeline

  // ----- Picking some of a list -----

  /** `ys` are the elements of `xs` at the positions `at`, which are the ones that are kept, in order. */
  ghost predicate KeptAt<T(!new)>(xs: seq<T>, ys: seq<T>, gone: T -> bool, at: seq<nat>) {
    && |at| == |ys|
    && (forall a, b :: 0 <= a < b < |at| ==> at[a] < at[b])
    && (forall k :: 0 <= k < |at| ==> at[k] < |xs| && ys[k] == xs[at[k]])
    && (forall i: nat :: i < |xs| ==> (i in at <==> !gone(xs[i])))
  }

  /** `ys` is `xs` less the elements that are gone. */
  ghost predicate Drops<T(!new)>(xs: seq<T>, ys: seq<T>, gone: T -> bool) {
    exists at: seq<nat> :: KeptAt(xs, ys, gone, at)
  }

  lemma KeepNext<T(!new)>(xs: seq<T>, ys: seq<T>, gone: T -> bool, x: T)
    requires Drops(xs, ys, gone)
    ensures Drops(xs + [x], if gone(x) then ys else ys + [x], gone)
  {
    hide KeptAt;
    var at: seq<nat> :| KeptAt(xs, ys, gone, at);
    if gone(x) {
      GoneNext(xs, ys, gone, at, x);
      assert KeptAt(xs + [x], ys, gone, at);
    } else {
      KeptNext(xs, ys, gone, at, x);
      assert KeptAt(xs + [x], ys + [x], gone, at + [|xs|]);
    }
  }

  lemma GoneNext<T(!new)>(xs: seq<T>, ys: seq<T>, gone: T -> bool, at: seq<nat>, x: T)
    requires KeptAt(xs, ys, gone, at) && gone(x)
    ensures KeptAt(xs + [x], ys, gone, at)
  {
    assert |xs| !in at;
    forall i: nat | i < |xs| ensures i in at <==> !gone((xs + [x])[i]) {
      assert (xs + [x])[i] == xs[i];
    }
  }

  lemma KeptNext<T(!new)>(xs: seq<T>, ys: seq<T>, gone: T -> bool, at: seq<nat>, x: T)
    requires KeptAt(xs, ys, gone, at) && !gone(x)
    ensures KeptAt(xs + [x], ys + [x], gone, at + [|xs|])
  {
    var more := at + [|xs|];
    assert more[|at|] == |xs|;
    forall i: nat | i < |xs| + 1 ensures i in more <==> !gone((xs + [x])[i]) {
      if i < |xs| {
        assert (xs + [x])[i] == xs[i];
        assert i in more <==> i in at;
      }
    }
  }

  lemma DropNothing<T(!new)>(gone: T -> bool)
    ensures Drops([], [], gone)
  {
    assert KeptAt<T>([], [], gone, []);
  }

  lemma {:induction false} OthersAreKept(ms: seq<Message>)
    ensures Drops(ms, Others(ms), (m: Message) => m.role == "system")
    ensures Drops(ms, Systems(ms), (m: Message) => m.role != "system")
  {
    hide Drops;
    if ms == [] {
      DropNothing((m: Message) => m.role == "system");
      DropNothing((m: Message) => m.role != "system");
    } else {
      var n := |ms| - 1;
      OthersAreKept(ms[..n]);
      assert ms == ms[..n] + [ms[n]];
      KeepNext(ms[..n], Others(ms[..n]), (m: Message) => m.role == "system", ms[n]);
      KeepNext(ms[..n], Systems(ms[..n]), (m: Message) => m.role != "system", ms[n]);
      assert Others(ms[..n]) + [] == Others(ms[..n]) && Systems(ms[..n]) + [] == Systems(ms[..n]);
    }
  }

  lemma {:induction false} PromptIsDropped(ms: seq<Message>, prompt: string)
    ensures Drops(ms, WithoutPrompt(ms, prompt), (m: Message) => m == Message("system", Text(prompt)))
  {
    hide Drops;
    var gone := (m: Message) => m == Message("system", Text(prompt));
    if ms == [] {
      DropNothing(gone);
    } else {
      var n := |ms| - 1;
      PromptIsDropped(ms[..n], prompt);
      assert ms == ms[..n] + [ms[n]];
      KeepNext(ms[..n], WithoutPrompt(ms[..n], prompt), gone, ms[n]);
      assert WithoutPrompt(ms[..n], prompt) + [] == WithoutPrompt(ms[..n], prompt);
    }
  }

  // ----- The text the policies look at -----

  /** The string contents, in order: the texts of the messages at the positions `at`. */
  ghost predicate TextsAt(ms: seq<Message>, texts: seq<string>, at: seq<nat>) {
    && |at| == |texts|
    && (forall a, b :: 0 <= a < b < |at| ==> at[a] < at[b])
    && (forall k :: 0 <= k < |at| ==> at[k] < |ms| && ms[at[k]].content == Text(texts[k]))
    && (forall i: nat :: i < |ms| ==> (i in at <==> ms[i].content.Text?))
  }

  lemma {:induction false} TextsExactly(ms: seq<Message>) returns (at: seq<nat>)
    ensures TextsAt(ms, Texts(ms), at)
  {
    if ms == [] {
      at := [];
    } else {
      var n := |ms| - 1;
      at := TextsExactly(ms[..n]);
      var before := at;
      if ms[n].content.Text? {
        at := at + [n];
        assert at[|before|] == n;
      }
      forall i: nat | i < |ms| ensures i in at <==> ms[i].content.Text? {
        if i < n {
          assert ms[..n][i] == ms[i];
          assert i in at <==> i in before;
        }
      }
    }
  }

  predicate StandsAt(all: string, at: nat, text: string) {
    at + |text| <= |all| && all[at..at + |text|] == text
  }

  predicate BlankAt(all: string, at: nat) {
    at < |all| && all[at] == ' '
  }

  /** The texts stand in `all` one after another, with one blank between two of them and nothing else. */
  ghost predicate Joined(texts: seq<string>, all: string, from: seq<nat>) {
    && |from| == |texts|
    && (texts == [] ==> all == "")
    && (texts != [] ==> from[0] == 0 && from[|texts|-1] + |texts[|texts|-1]| == |all|)
    && (forall k :: 0 <= k < |texts| ==> StandsAt(all, from[k], texts[k]))
    && (forall k, l :: 0 <= k && l == k + 1 && l < |texts| ==> from[l] == from[k] + |texts[k]| + 1)
    && (forall k :: 0 <= k < |texts| - 1 ==> BlankAt(all, from[k] + |texts[k]|))
  }

  lemma StillStands(all: string, more: string, at: nat, text: string)
    ensures StandsAt(all, at, text) ==> StandsAt(all + more, at, text)
    ensures BlankAt(all, at) ==> BlankAt(all + more, at)
  {
    if StandsAt(all, at, text) {
      assert (all + more)[at..at + |text|] == all[at..at + |text|];
    }
  }

  lemma NewStands(all: string, text: string)
    ensures StandsAt(all + " " + text, |all| + 1, text) && BlankAt(all + " " + text, |all|)
    ensures all + " " + text == all + (" " + text)
  {
  }

  lemma JoinNext(texts: seq<string>, all: string, from: seq<nat>, text: string)
    requires texts != [] && Joined(texts, all, from)
    ensures Joined(texts + [text], all + " " + text, from + [|all| + 1])
  {
    hide StandsAt, BlankAt;
    var ts, a, f := texts + [text], all + " " + text, from + [|all| + 1];
    NewStands(all, text);
    forall k | 0 <= k < |ts| ensures StandsAt(a, f[k], ts[k]) {
      if k < |texts| {
        StillStands(all, " " + text, f[k], ts[k]);
      }
    }
    forall k | 0 <= k < |ts| - 1 ensures BlankAt(a, f[k] + |ts[k]|) {
      if k < |texts| - 1 {
        assert BlankAt(all, from[k] + |texts[k]|);
        StillStands(all, " " + text, from[k] + |texts[k]|, "");
      }
    }
  }

  lemma {:induction false} JoinExactly(texts: seq<string>) returns (from: seq<nat>)
    ensures Joined(texts, JoinTexts(texts), from)
  {
    hide Joined;
    if |texts| <= 1 {
      from := JoinFew(texts);
    } else {
      var n := |texts| - 1;
      var init := JoinExactly(texts[..n]);
      JoinNext(texts[..n], JoinTexts(texts[..n]), init, texts[n]);
      assert texts == texts[..n] + [texts[n]];
      from := init + [|JoinTexts(texts[..n])| + 1];
    }
  }

  lemma JoinFew(texts: seq<string>) returns (from: seq<nat>)
    requires |texts| <= 1
    ensures Joined(texts, JoinTexts(texts), from)
  {
    from := if texts == [] then [] else [0];
  }

  /** The text a policy looks at: the string contents of all messages in order, with blanks between them. */
  lemma AllTextExactly(ms: seq<Message>) returns (texts: seq<string>, at: seq<nat>, from: seq<nat>)
    ensures TextsAt(ms, texts, at) && Joined(texts, AllText(ms), from)
  {
    hide TextsAt, Joined;
    texts := Texts(ms);
    at := TextsExactly(ms);
    from := JoinExactly(texts);
  }

  // ----- What one policy does -----

  /** A detection that its mode asks for finds the threat. */
  ghost predicate Finds(p: Policy, text: string)
    requires p.ThreatDetect?
  {
    || (p.mode in {Regex, Both} && p.detections(text) >= (if p.threat == Injection && p.sensitivity == Low then 3 else 1))
    || (p.mode in {Ai, Both} && exists reason :: p.classify(text) == Unsafe(p.threat, reason))
  }

  /** The policy's ground for refusing a request. */
  ghost predicate Objects(p: Policy, model: string, ms: seq<Message>) {
    match p
    case TopicBlock(_, action, _, blocks, _) => action == Reject && blocks(AllText(ms))
    case ModelRestrict(_, _, allowed, glob) => allowed != [] && forall i :: 0 <= i < |allowed| ==> !glob(model, allowed[i])
    case ThreatDetect(_, _, _, action, _, _, _, _) => action == Reject && Finds(p, AllText(ms))
    case _ => false
  }

  /** The policy leaves a record. */
  ghost predicate Acts(p: Policy, model: string, ms: seq<Message>) {
    match p
    case PromptInject(_, prompt) => prompt != ""
    case PromptEnforce(_, _, _) => true
    case TopicBlock(_, action, _, blocks, _) => action in {Reject, Redact} && blocks(AllText(ms))
    case ModelRestrict(_, _, _, _) => Objects(p, model, ms)
    case MaxOutputTokens(_, limit) => limit != 0
    case ThreatDetect(_, _, _, action, _, _, _, _) => action in {Reject, Flag} && Finds(p, AllText(ms))
    case OtherPolicy(_) => false
  }

  /** The reason given by a policy that refuses. */
  ghost predicate GivesReason(p: Policy, ms: seq<Message>, reason: string) {
    match p
    case TopicBlock(_, _, message, _, _) => reason == message
    case ModelRestrict(_, message, _, _) => reason == message
    case ThreatDetect(_, threat, _, _, mode, custom, detections, classify) =>
      if custom.Some? then reason == custom.value
      else if mode != Ai && detections(AllText(ms)) >= (if threat == Injection && p.sensitivity == Low then 3 else 1) then
        reason == if threat == Injection then "Prompt injection detected and blocked."
                  else "Jailbreak attempt detected and blocked."
      else
        exists why :: classify(AllText(ms)) == Unsafe(threat, why)
          && reason == (if threat == Injection then "Prompt injection" else "Jailbreak") + " blocked: " + why
    case _ => false
  }

  function RecordOf(p: Policy): Effect
    requires !p.OtherPolicy?
  {
    match p
    case PromptInject(_, _) => Injected
    case PromptEnforce(_, _, _) => Enforced
    case TopicBlock(_, action, _, _, _) => if action == Reject then Blocked else Redacted
    case ModelRestrict(_, _, _, _) => ModelDenied
    case MaxOutputTokens(_, limit) => OutputLimit(limit)
    case ThreatDetect(_, threat, _, action, _, _, _, _) => if action == Reject then Detected(threat) else Flagged(threat)
  }

  /** A system prompt has been put before `rest`, or, when it is empty, nothing has. */
  predicate Headed(after: seq<Message>, prompt: string, rest: seq<Message>) {
    if prompt == "" then after == rest
    else after != [] && after[0] == Message("system", Text(prompt)) && after[1..] == rest
  }

  /** Every string content has been redacted, and nothing else has changed. */
  ghost predicate AllRedacted(before: seq<Message>, after: seq<Message>, redact: string -> string) {
    && |after| == |before|
    && forall i :: 0 <= i < |before| ==>
         && after[i].role == before[i].role
         && (if before[i].content.Text? then after[i].content == Text(redact(before[i].content.text))
             else after[i].content == before[i].content)
  }

  /** What a policy makes of the messages of a request that it does not refuse. */
  ghost predicate Rewrites(p: Policy, before: seq<Message>, after: seq<Message>) {
    match p
    case PromptInject(_, prompt) =>
      if prompt == "" then after == before
      else exists rest :: Headed(after, prompt, rest)
                          && Drops(before, rest, (m: Message) => m == Message("system", Text(prompt)))
    case PromptEnforce(_, prompt, allowClient) =>
      exists rest :: Headed(after, prompt, rest)
                     && if allowClient then rest == before
                        else Drops(before, rest, (m: Message) => m.role == "system")
    case TopicBlock(_, action, _, blocks, redact) =>
      if action == Redact && blocks(AllText(before)) then AllRedacted(before, after, redact) else after == before
    case _ => after == before
  }

  lemma ThreatFound(p: Policy, text: string)
    requires p.ThreatDetect?
    ensures Threatens(p, text).Some? <==> Finds(p, text)
  {
    var v := p.classify(text);
    if v.Unsafe? && v.threat == p.threat {
      assert v == Unsafe(p.threat, v.reason);
    }
  }

  lemma ThreatReason(p: Policy, ms: seq<Message>)
    requires p.ThreatDetect? && Threatens(p, AllText(ms)).Some?
    ensures GivesReason(p, ms, Threatens(p, AllText(ms)).value)
  {
    hide AllText;
    var v := p.classify(AllText(ms));
    if v.Unsafe? && v.threat == p.threat {
      assert v == Unsafe(p.threat, v.reason);
    }
  }

  lemma ApplyRefuses(p: Policy, model: string, r: Review)
    requires r.rejected == None
    ensures Apply(p, model, r).rejected.Some? <==> Objects(p, model, r.messages)
    ensures Objects(p, model, r.messages) ==> GivesReason(p, r.messages, Apply(p, model, r).rejected.value)
  {
    hide AllText, Threatens, Finds, Permitted;
    if p.ThreatDetect? {
      ThreatFound(p, AllText(r.messages));
      if Threatens(p, AllText(r.messages)).Some? {
        ThreatReason(p, r.messages);
      }
    } else if p.ModelRestrict? {
      PermittedExactly(model, p.allowed, p.glob);
    }
  }

  lemma PermittedExactly(model: string, allowed: seq<string>, glob: (string, string) -> bool)
    ensures !Permitted(model, allowed, glob) <==> forall i :: 0 <= i < |allowed| ==> !glob(model, allowed[i])
  {
  }

  lemma RedactExactly(ms: seq<Message>, redact: string -> string)
    ensures AllRedacted(ms, RedactAll(ms, redact), redact)
  {
    forall i | 0 <= i < |ms| ensures RedactAll(ms, redact)[i] == RedactMessage(ms[i], redact) {
    }
  }

  /** What the policy leaves when it does not refuse, and the record it adds whether it refuses or not. */
  lemma ApplyRewrites(p: Policy, model: string, r: Review)
    requires r.rejected == None
    ensures !Objects(p, model, r.messages) ==> Rewrites(p, r.messages, Apply(p, model, r).messages)
    ensures Apply(p, model, r).applied ==
            r.applied + if Acts(p, model, r.messages) then [Applied(RecordOf(p), p.name)] else []
  {
    hide AllText, Threatens, Finds, Permitted, Drops, RedactAll, WithoutPrompt, WithRole;
    var ms := r.messages;
    var after := Apply(p, model, r).messages;
    assert r.applied + [] == r.applied;
    match p {
      case PromptInject(_, prompt) =>
        PromptIsDropped(ms, prompt);
        if prompt != "" {
          assert after[1..] == WithoutPrompt(ms, prompt);
          assert Headed(after, prompt, WithoutPrompt(ms, prompt));
        }
      case PromptEnforce(_, prompt, allowClient) =>
        OthersAreKept(ms);
        var rest := if allowClient then ms else Others(ms);
        assert prompt != "" ==> after[1..] == rest;
        assert Headed(after, prompt, rest);
      case TopicBlock(_, _, _, _, redact) => RedactExactly(ms, redact);
      case ModelRestrict(_, _, allowed, glob) => PermittedExactly(model, allowed, glob);
      case MaxOutputTokens(_, _) =>
      case ThreatDetect(_, _, _, _, _, _, _, _) => ThreatFound(p, AllText(ms));
      case OtherPolicy(_) =>
    }
  }

  // ----- The policies in a row -----

  /** The messages as the first `n` policies leave them. */
  function Left(ps: seq<Policy>, n: nat, model: string, ms: seq<Message>): seq<Message>
    requires n <= |ps|
  {
    Evaluate(ps[..n], model, Fresh(ms)).messages
  }

  /** None of the first `n` policies has a ground for refusing what it sees. */
  ghost predicate NoneObjects(ps: seq<Policy>, n: nat, model: string, ms: seq<Message>)
    requires n <= |ps|
  {
    forall j :: 0 <= j < n ==> !Objects(ps[j], model, Left(ps, j, model, ms))
  }

  /** Policy `i` refuses the request, and none before it does. */
  ghost predicate RefusesFirst(ps: seq<Policy>, i: nat, model: string, ms: seq<Message>) {
    i < |ps| && NoneObjects(ps, i, model, ms) && Objects(ps[i], model, Left(ps, i, model, ms))
  }

  lemma EvaluateNext(ps: seq<Policy>, n: nat, model: string, r: Review)
    requires n < |ps|
    ensures var s := Evaluate(ps[..n], model, r);
            Evaluate(ps[..n+1], model, r) == if s.rejected.Some? then s else Apply(ps[n], model, s)
  {
    hide Apply;
    assert ps[..n+1] == ps[..n] + [ps[n]];
    EvaluateConcat(ps[..n], [ps[n]], model, r);
    EvaluateOne(ps[n], model, Evaluate(ps[..n], model, r));
  }

  lemma {:induction false} NotRejectedExactly(ps: seq<Policy>, n: nat, model: string, ms: seq<Message>)
    requires n <= |ps|
    ensures Evaluate(ps[..n], model, Fresh(ms)).rejected == None <==> NoneObjects(ps, n, model, ms)
  {
    hide Apply, Objects, Evaluate;
    if n == 0 {
      NothingEvaluated(ps, model, ms);
    } else {
      NotRejectedExactly(ps, n - 1, model, ms);
      EvaluateNext(ps, n - 1, model, Fresh(ms));
      var s := Evaluate(ps[..n-1], model, Fresh(ms));
      if s.rejected == None {
        ApplyRefuses(ps[n-1], model, s);
        assert s.messages == Left(ps, n - 1, model, ms);
      }
    }
  }

  lemma NothingEvaluated(ps: seq<Policy>, model: string, ms: seq<Message>)
    ensures Evaluate(ps[..0], model, Fresh(ms)) == Fresh(ms)
  {
  }

  /** Some policy refuses first, unless none has a ground. */
  lemma {:induction false} FirstRefusal(ps: seq<Policy>, n: nat, model: string, ms: seq<Message>) returns (i: nat)
    requires n <= |ps| && !NoneObjects(ps, n, model, ms)
    ensures i < n && RefusesFirst(ps, i, model, ms)
  {
    hide Objects, Left;
    if !NoneObjects(ps, n - 1, model, ms) {
      i := FirstRefusal(ps, n - 1, model, ms);
    } else {
      i := n - 1;
    }
  }

  lemma RefusalStands(ps: seq<Policy>, i: nat, model: string, ms: seq<Message>)
    requires RefusesFirst(ps, i, model, ms)
    ensures var r := Evaluate(ps, model, Fresh(ms));
            && r == Evaluate(ps[..i+1], model, Fresh(ms))
            && r.rejected.Some? && GivesReason(ps[i], Left(ps, i, model, ms), r.rejected.value)
  {
    hide Apply, Objects, GivesReason, NoneObjects;
    NotRejectedExactly(ps, i, model, ms);
    EvaluateNext(ps, i, model, Fresh(ms));
    ApplyRefuses(ps[i], model, Evaluate(ps[..i], model, Fresh(ms)));
    assert ps == ps[..i+1] + ps[i+1..];
    RejectionIsAbsorbing(ps[..i+1], ps[i+1..], model, Fresh(ms));
  }

  /**
   A request is refused exactly when some policy has its ground for refusing the messages the policies before it leave,
   and none of those had.  The reason is that policy's, and no messages are handed back.
   */
  lemma RefusedExactly(ps: seq<Policy>, model: string, ms: seq<Message>)
    ensures var e := EvaluateRequest(ps, model, ms);
            && (!e.allowed <==> exists i: nat :: RefusesFirst(ps, i, model, ms))
            && (e.allowed <==> e.reason == None)
            && (forall i: nat :: i < |ps| && RefusesFirst(ps, i, model, ms) ==>
                  GivesReason(ps[i], Left(ps, i, model, ms), e.reason.value) && e.modified == None)
  {
    hide Evaluate, NoneObjects, Objects, Left, GivesReason, RefusesFirst;
    NotRejectedExactly(ps, |ps|, model, ms);
    assert ps[..|ps|] == ps;
    if !NoneObjects(ps, |ps|, model, ms) {
      var i := FirstRefusal(ps, |ps|, model, ms);
    }
    if i: nat :| RefusesFirst(ps, i, model, ms) {
      RefusalStands(ps, i, model, ms);
    }
    forall i: nat | i < |ps| && RefusesFirst(ps, i, model, ms)
      ensures var r := Evaluate(ps, model, Fresh(ms));
              r.rejected.Some? && GivesReason(ps[i], Left(ps, i, model, ms), r.rejected.value)
    {
      RefusalStands(ps, i, model, ms);
    }
  }

  /** What happens to the messages along the way, and that they are handed back exactly when they end up different. */
  lemma MessagesExactly(ps: seq<Policy>, model: string, ms: seq<Message>)
    requires EvaluateRequest(ps, model, ms).allowed
    ensures Left(ps, 0, model, ms) == ms
    ensures forall i :: 0 <= i < |ps| ==> Rewrites(ps[i], Left(ps, i, model, ms), Left(ps, i + 1, model, ms))
    ensures var last := Left(ps, |ps|, model, ms);
            EvaluateRequest(ps, model, ms).modified == if last == ms then None else Some(last)
  {
    hide Evaluate, Objects, Apply, Rewrites;
    assert ps[..|ps|] == ps;
    NothingEvaluated(ps, model, ms);
    NotRejectedExactly(ps, |ps|, model, ms);
    forall i | 0 <= i < |ps| ensures Rewrites(ps[i], Left(ps, i, model, ms), Left(ps, i + 1, model, ms)) {
      NotRejectedExactly(ps, i, model, ms);
      EvaluateNext(ps, i, model, Fresh(ms));
      ApplyRewrites(ps[i], model, Evaluate(ps[..i], model, Fresh(ms)));
      assert !Objects(ps[i], model, Left(ps, i, model, ms));
    }
  }

  // ----- The record -----

  /** The policies among the first `n` that act, in order. */
  ghost function Actors(ps: seq<Policy>, n: nat, model: string, ms: seq<Message>): (r: seq<nat>)
    requires n <= |ps|
    ensures forall j: nat :: j in r <==> j < n && Acts(ps[j], model, Left(ps, j, model, ms))
    ensures forall k :: 0 <= k < |r| ==> r[k] < n
    ensures forall a, b :: 0 <= a < b < |r| ==> r[a] < r[b]
  {
    if n == 0 then [] else
      Actors(ps, n - 1, model, ms) + if Acts(ps[n-1], model, Left(ps, n - 1, model, ms)) then [n - 1] else []
  }

  /** The records are those of these policies, in this order. */
  ghost predicate RecordsOf(ps: seq<Policy>, actors: seq<nat>, applied: seq<Applied>) {
    && |applied| == |actors|
    && forall k :: 0 <= k < |actors| ==>
         && actors[k] < |ps| && !ps[actors[k]].OtherPolicy?
         && applied[k] == Applied(RecordOf(ps[actors[k]]), ps[actors[k]].name)
  }

  lemma {:induction false} RecordsSoFar(ps: seq<Policy>, n: nat, model: string, ms: seq<Message>)
    requires n <= |ps| && NoneObjects(ps, if n == 0 then 0 else n - 1, model, ms)
    ensures RecordsOf(ps, Actors(ps, n, model, ms), Evaluate(ps[..n], model, Fresh(ms)).applied)
  {
    hide Evaluate, Apply, Objects, Acts, RecordOf;
    if n == 0 {
      NothingEvaluated(ps, model, ms);
    } else {
      assert NoneObjects(ps, n - 1, model, ms);
      RecordsSoFar(ps, n - 1, model, ms);
      NotRejectedExactly(ps, n - 1, model, ms);
      EvaluateNext(ps, n - 1, model, Fresh(ms));
      ApplyRewrites(ps[n-1], model, Evaluate(ps[..n-1], model, Fresh(ms)));
      OthersDoNotAct(ps[n-1], model, Left(ps, n - 1, model, ms));
    }
  }

  lemma OthersDoNotAct(p: Policy, model: string, ms: seq<Message>)
    ensures Acts(p, model, ms) ==> !p.OtherPolicy?
  {
  }

  /**
   The record names the policies that acted, each once and in order: all of an allowed request, and of a refused one those
   up to and including the one that refused it.
   */
  lemma RecordExactly(ps: seq<Policy>, model: string, ms: seq<Message>)
    ensures var e := EvaluateRequest(ps, model, ms);
            && (e.allowed ==> RecordsOf(ps, Actors(ps, |ps|, model, ms), e.applied))
            && (forall i: nat :: i < |ps| && RefusesFirst(ps, i, model, ms) ==>
                  RecordsOf(ps, Actors(ps, i + 1, model, ms), e.applied))
  {
    hide Evaluate, Objects, Left, GivesReason, RecordsOf, Actors;
    assert ps[..|ps|] == ps;
    if EvaluateRequest(ps, model, ms).allowed {
      NotRejectedExactly(ps, |ps|, model, ms);
      RecordsSoFar(ps, |ps|, model, ms);
    }
    forall i: nat | i < |ps| && RefusesFirst(ps, i, model, ms)
      ensures RecordsOf(ps, Actors(ps, i + 1, model, ms), EvaluateRequest(ps, model, ms).applied)
    {
      RefusalStands(ps, i, model, ms);
      RecordsSoFar(ps, i + 1, model, ms);
    }
  }

  // ----- Redaction -----

  /** No string content of these messages has the property. */
  ghost predicate Clear(ms: seq<Message>, bad: string -> bool) {
    forall i :: 0 <= i < |ms| && ms[i].content.Text? ==> !bad(ms[i].content.text)
  }

  /** What a redaction removes from every text is gone from all the messages the policy leaves. */
  lemma RedactedIsGone(ps: seq<Policy>, i: nat, model: string, ms: seq<Message>, bad: string -> bool)
    requires EvaluateRequest(ps, model, ms).allowed && i < |ps| && ps[i].TopicBlock? && ps[i].action == Redact
    requires ps[i].blocks(AllText(Left(ps, i, model, ms)))
    requires forall text :: !bad(ps[i].redact(text))
    ensures Clear(Left(ps, i + 1, model, ms), bad)
  {
    hide Evaluate, Left, AllText;
    MessagesExactly(ps, model, ms);
    var before, after := Left(ps, i, model, ms), Left(ps, i + 1, model, ms);
    assert Rewrites(ps[i], before, after);
    assert AllRedacted(before, after, ps[i].redact);
  }

  // ----- What the program makes of it -----

  /** The reason the policy gives, or a general one when that is empty. */
  ghost predicate SaysReason(p: Policy, ms: seq<Message>, said: string) {
    exists reason :: GivesReason(p, ms, reason) && said == if reason == "" then "Blocked by content policy" else reason
  }

  /**
   A denial says why: the request is denied exactly when some policy refuses it first, with that policy's reason, or a
   general one when the reason is empty.
   */
  lemma DeniedExactly(ps: seq<Policy>, model: string, enc: Encoder, truncation: bool, maxTokens: int, ms: seq<Message>)
    ensures var h := Process(ps, model, enc, truncation, maxTokens, ms);
            && (h.Denied? <==> exists i: nat :: RefusesFirst(ps, i, model, ms))
            && (forall i: nat :: i < |ps| && RefusesFirst(ps, i, model, ms) ==>
                  h.Denied? && SaysReason(ps[i], Left(ps, i, model, ms), h.reason))
  {
    hide Evaluate, RefusesFirst, GivesReason, Left, Truncate, EvaluateRequest;
    RefusedExactly(ps, model, ms);
    var e := EvaluateRequest(ps, model, ms);
    forall i: nat | i < |ps| && RefusesFirst(ps, i, model, ms)
      ensures var h := Process(ps, model, enc, truncation, maxTokens, ms);
              h.Denied? && SaysReason(ps[i], Left(ps, i, model, ms), h.reason)
    {
      assert GivesReason(ps[i], Left(ps, i, model, ms), e.reason.value);
    }
  }

  /**
   With truncation off nothing is cut: the messages the policies leave go on, or the original ones when these are none,
   with the whole conversation in its shape, word for word unless a policy redacts.
   */
  lemma HandedOnUncut(ps: seq<Policy>, model: string, enc: Encoder, maxTokens: int, ms: seq<Message>)
    requires EvaluateRequest(ps, model, ms).allowed
    ensures var h := Process(ps, model, enc, false, maxTokens, ms);
            var last := Left(ps, |ps|, model, ms);
            && h.Passed? && !h.truncated
            && h.messages == (if last == [] then ms else last)
            && SameShape(Others(ms), Others(h.messages))
            && ((forall i :: 0 <= i < |ps| ==> !MayRedact(ps[i])) ==> Others(h.messages) == Others(ms))
  {
    hide Evaluate, SameShape, WithRole;
    MessagesExactly(ps, model, ms);
    assert ps[..|ps|] == ps;
    ConversationIsKept(ps, model, Fresh(ms));
    SameShapeReflexive(Others(ms));
    if forall i :: 0 <= i < |ps| ==> !MayRedact(ps[i]) {
      ConversationIsUntouched(ps, model, Fresh(ms));
    }
  }
}
