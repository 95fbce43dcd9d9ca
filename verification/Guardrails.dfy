/**
 The content policies on a request, guardrails.py: a fold over the policies in priority order that rewrites the
 messages, records what applied, and stops at the first rejection.  Then the order of main.py: policies, then
 truncation.

 Pattern matching, redaction and the threat classifier are functions carried by the policies.
 */
module Guardrails {
  import opened Prelude
  import opened Truncation

  datatype Action = Reject | Redact | Flag | NoAction

  datatype Mode = Regex | Ai | Both | NoMode

  datatype Threat = Injection | Jailbreak

  /** Every other name the configuration may hold counts as medium. */
  datatype Sensitivity = Low | Medium | High

  /** What the classifier says of a text. */
  datatype Verdict = Safe | Unsafe(threat: Threat, reason: string)

  datatype Policy =
    | PromptInject(name: string, prompt: string)
    | PromptEnforce(name: string, prompt: string, allowClient: bool)
    | TopicBlock(name: string, action: Action, message: string, blocks: string -> bool, redact: string -> string)
    | ModelRestrict(name: string, message: string, allowed: seq<string>, glob: (string, string) -> bool)
    | MaxOutputTokens(name: string, limit: int)
    | ThreatDetect(name: string, threat: Threat, sensitivity: Sensitivity, action: Action, mode: Mode,
                   custom: Option<string>, detections: string -> nat, classify: string -> Verdict)
    | OtherPolicy(name: string)

  datatype Effect =
    | Injected | Enforced | Blocked | Redacted | ModelDenied | OutputLimit(tokens: int)
    | Detected(threat: Threat) | Flagged(threat: Threat)

  datatype Applied = Applied(effect: Effect, name: string)

  /** The evaluation so far: the messages as modified, what applied, and the reason once it has been rejected. */
  datatype Review = Review(messages: seq<Message>, applied: seq<Applied>, rejected: Option<string>)

  function SystemMessage(prompt: string): Message {
    Message("system", Text(prompt))
  }

  /** All messages except system messages that carry exactly this prompt. */
  function WithoutPrompt(ms: seq<Message>, prompt: string): seq<Message> {
    if ms == [] then [] else
      var n := |ms| - 1;
      WithoutPrompt(ms[..n], prompt) + if ms[n] == SystemMessage(prompt) then [] else [ms[n]]
  }

  /** The string contents joined by blanks. */
  function AllText(ms: seq<Message>): string {
    JoinTexts(Texts(ms))
  }

  function Texts(ms: seq<Message>): seq<string> {
    if ms == [] then [] else
      var n := |ms| - 1;
      Texts(ms[..n]) + if ms[n].content.Text? then [ms[n].content.text] else []
  }

  function JoinTexts(texts: seq<string>): string {
    if texts == [] then "" else if |texts| == 1 then texts[0]
    else JoinTexts(texts[..|texts|-1]) + " " + texts[|texts|-1]
  }

  function RedactMessage(m: Message, redact: string -> string): Message {
    if m.content.Text? then m.(content := Text(redact(m.content.text))) else m
  }

  function RedactAll(ms: seq<Message>, redact: string -> string): (r: seq<Message>)
    ensures |r| == |ms|
    ensures forall i :: 0 <= i < |ms| ==> r[i] == RedactMessage(ms[i], redact)
  {
    if ms == [] then [] else RedactAll(ms[..|ms|-1], redact) + [RedactMessage(ms[|ms|-1], redact)]
  }

  function Note(r: Review, ms: seq<Message>, effect: Effect, name: string): Review {
    Review(ms, r.applied + [Applied(effect, name)], None)
  }

  function Refuse(r: Review, reason: string, effect: Effect, name: string): Review {
    Review(r.messages, r.applied + [Applied(effect, name)], Some(reason))
  }

  function RegexReason(threat: Threat, custom: Option<string>): string {
    match custom
    case Some(m) => m
    case None =>
      match threat
      case Injection => "Prompt injection detected and blocked."
      case Jailbreak => "Jailbreak attempt detected and blocked."
  }

  function AiReason(threat: Threat, custom: Option<string>, reason: string): string {
    match custom
    case Some(m) => m
    case None => (match threat case Injection => "Prompt injection" case Jailbreak => "Jailbreak") + " blocked: " + reason
  }

  /** How many patterns must match; only for injections does the sensitivity count. */
  function Needed(threat: Threat, sensitivity: Sensitivity): nat {
    if threat == Injection && sensitivity == Low then 3 else 1
  }

  predicate PatternsFind(p: Policy, text: string)
    requires p.ThreatDetect?
  {
    p.detections(text) >= Needed(p.threat, p.sensitivity)
  }

  predicate ClassifierFinds(p: Policy, text: string)
    requires p.ThreatDetect?
  {
    p.classify(text).Unsafe? && p.classify(text).threat == p.threat
  }

  /** The reason for refusing a detected threat, or None when nothing is detected. */
  function Threatens(p: Policy, text: string): Option<string>
    requires p.ThreatDetect?
  {
    if p.mode in {Regex, Both} && PatternsFind(p, text) then Some(RegexReason(p.threat, p.custom))
    else if p.mode in {Ai, Both} && ClassifierFinds(p, text) then
      Some(AiReason(p.threat, p.custom, p.classify(text).reason))
    else None
  }

  /**
   What each mode lets pass: both checks together let pass exactly what either alone would, no mode lets everything
   pass, and what is found at a low sensitivity is found at every other.
   */
  lemma ModesDetectExactly(p: Policy, text: string)
    requires p.ThreatDetect?
    ensures Threatens(p.(mode := NoMode), text) == None
    ensures Threatens(p.(mode := Regex), text) == None <==> p.detections(text) < Needed(p.threat, p.sensitivity)
    ensures Threatens(p.(mode := Ai), text) == None <==>
            forall reason :: p.classify(text) != Unsafe(p.threat, reason)
    ensures Threatens(p.(mode := Both), text) == None <==>
            Threatens(p.(mode := Regex), text) == None && Threatens(p.(mode := Ai), text) == None
    ensures Threatens(p.(sensitivity := Low), text).Some? ==> Threatens(p, text).Some?
    ensures p.sensitivity != Low || p.threat == Jailbreak ==> Threatens(p.(sensitivity := High), text) == Threatens(p, text)
  {
    var v := p.classify(text);
    if v.Unsafe? && v.threat == p.threat {
      assert v == Unsafe(p.threat, v.reason);
    }
  }

  /** The model matches one of the patterns. */
  predicate Permitted(model: string, allowed: seq<string>, glob: (string, string) -> bool) {
    exists i :: 0 <= i < |allowed| && glob(model, allowed[i])
  }

  /** One policy, on a request that has not been rejected. */
  function Apply(p: Policy, model: string, r: Review): Review {
    match p
    case PromptInject(name, prompt) =>
      if prompt == "" then r
      else Note(r, [SystemMessage(prompt)] + WithoutPrompt(r.messages, prompt), Injected, name)
    case PromptEnforce(name, prompt, allowClient) =>
      var kept := if allowClient then r.messages else Others(r.messages);
      Note(r, if prompt == "" then kept else [SystemMessage(prompt)] + kept, Enforced, name)
    case TopicBlock(name, action, message, blocks, redact) =>
      if !blocks(AllText(r.messages)) then r
      else if action == Reject then Refuse(r, message, Blocked, name)
      else if action == Redact then Note(r, RedactAll(r.messages, redact), Redacted, name)
      else r
    case ModelRestrict(name, message, allowed, glob) =>
      if allowed != [] && !Permitted(model, allowed, glob) then Refuse(r, message, ModelDenied, name) else r
    case MaxOutputTokens(name, limit) =>
      if limit != 0 then Note(r, r.messages, OutputLimit(limit), name) else r
    case ThreatDetect(name, threat, _, action, _, _, _, _) =>
      var reason := Threatens(p, AllText(r.messages));
      if reason == None then r
      else if action == Reject then Refuse(r, reason.value, Detected(threat), name)
      else if action == Flag then Note(r, r.messages, Flagged(threat), name)
      else r
    case OtherPolicy(_) => r
  }

  /** The fold over the policies; a rejection ends it. */
  function Evaluate(ps: seq<Policy>, model: string, r: Review): Review
    decreases |ps|
  {
    if ps == [] || r.rejected.Some? then r else Evaluate(ps[1..], model, Apply(ps[0], model, r))
  }

  function Fresh(ms: seq<Message>): Review {
    Review(ms, [], None)
  }

  datatype Evaluation = Evaluation(allowed: bool, reason: Option<string>, modified: Option<seq<Message>>, applied: seq<Applied>)

  /** `evaluate_request`: modified messages are reported only when the request is allowed and they differ. */
  function EvaluateRequest(ps: seq<Policy>, model: string, ms: seq<Message>): Evaluation {
    var r := Evaluate(ps, model, Fresh(ms));
    if r.rejected.Some? then Evaluation(false, r.rejected, None, r.applied)
    else Evaluation(true, None, if r.messages != ms then Some(r.messages) else None, r.applied)
  }

  // ----- The program -----

  method RedactEach(ms: seq<Message>, redact: string -> string) returns (modified: seq<Message>)
    ensures modified == RedactAll(ms, redact)
  {
    modified := ms;
    var i := 0;
    while i < |modified|
      invariant 0 <= i <= |modified| == |ms|
      invariant forall k :: 0 <= k < i ==> modified[k] == RedactMessage(ms[k], redact)
      invariant forall k :: i <= k < |ms| ==> modified[k] == ms[k]
    {
      match modified[i].content {
        case Text(text) => modified := modified[i := modified[i].(content := Text(redact(text)))];
        case Parts(_) =>
        case NoText =>
      }
      i := i + 1;
    }
  }

  method DetectThreat(p: Policy, text: string) returns (reason: Option<string>)
    requires p.ThreatDetect?
    ensures reason == Threatens(p, text)
    ensures reason == None <==>
            && (p.mode in {Regex, Both} ==> p.detections(text) < Needed(p.threat, p.sensitivity))
            && (p.mode in {Ai, Both} ==> !ClassifierFinds(p, text))
  {
    reason := None;
    if p.mode == Regex || p.mode == Both {
      if p.detections(text) >= Needed(p.threat, p.sensitivity) {
        reason := Some(RegexReason(p.threat, p.custom));
      }
    }
    if reason == None && (p.mode == Ai || p.mode == Both) {
      var verdict := p.classify(text);
      if verdict.Unsafe? && verdict.threat == p.threat {
        reason := Some(AiReason(p.threat, p.custom, verdict.reason));
      }
    }
  }

  method EvaluateRequestLoop(ps: seq<Policy>, model: string, messages: seq<Message>) returns (result: Evaluation)
    ensures result == EvaluateRequest(ps, model, messages)
  {
    var modified := messages;
    var applied: seq<Applied> := [];
    var i := 0;
    while i < |ps|
      invariant 0 <= i <= |ps|
      invariant Evaluate(ps[i..], model, Review(modified, applied, None)) == Evaluate(ps, model, Fresh(messages))
    {
      var p := ps[i];
      assert ps[i..][1..] == ps[i+1..];
      ghost var r := Review(modified, applied, None);
      match p {
        case PromptInject(name, prompt) =>
          if prompt != "" {
            modified := [SystemMessage(prompt)] + WithoutPrompt(modified, prompt);
            applied := applied + [Applied(Injected, name)];
          }
        case PromptEnforce(name, prompt, allowClient) =>
          if !allowClient {
            modified := Others(modified);
          }
          if prompt != "" {
            modified := [SystemMessage(prompt)] + modified;
          }
          applied := applied + [Applied(Enforced, name)];
        case TopicBlock(name, action, message, blocks, redact) =>
          if blocks(AllText(modified)) {
            if action == Reject {
              applied := applied + [Applied(Blocked, name)];
              RejectionEnds(ps[i..], model, r);
              return Evaluation(false, Some(message), None, applied);
            } else if action == Redact {
              modified := RedactEach(modified, redact);
              applied := applied + [Applied(Redacted, name)];
            }
          }
        case ModelRestrict(name, message, allowed, glob) =>
          if allowed != [] && !Permitted(model, allowed, glob) {
            applied := applied + [Applied(ModelDenied, name)];
            RejectionEnds(ps[i..], model, r);
            return Evaluation(false, Some(message), None, applied);
          }
        case MaxOutputTokens(name, limit) =>
          if limit != 0 {
            applied := applied + [Applied(OutputLimit(limit), name)];
          }
        case ThreatDetect(name, threat, _, action, _, _, _, _) =>
          var reason := DetectThreat(p, AllText(modified));
          if reason.Some? {
            if action == Reject {
              applied := applied + [Applied(Detected(threat), name)];
              RejectionEnds(ps[i..], model, r);
              return Evaluation(false, reason, None, applied);
            } else if action == Flag {
              applied := applied + [Applied(Flagged(threat), name)];
            }
          }
        case OtherPolicy(_) =>
      }
      assert Apply(p, model, r) == Review(modified, applied, None);
      i := i + 1;
    }
    result := Evaluation(true, None, if modified != messages then Some(modified) else None, applied);
  }

  lemma RejectionEnds(ps: seq<Policy>, model: string, r: Review)
    requires ps != [] && r.rejected == None && Apply(ps[0], model, r).rejected.Some?
    ensures Evaluate(ps, model, r) == Apply(ps[0], model, r)
  {
    hide Apply;
  }
}
