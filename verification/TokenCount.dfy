/**
 What the token estimate counts: the texts of the messages, each occurrence once, and four for every message.

 `Flat` is the list of these texts, given by how often each text occurs in the messages; the estimate is then a sum
 over that list.
 */
module TokenCount {
  import opened Prelude
  import opened Truncation

  // ----- The texts of a list of messages -----

  /** Where a text stands: it is the whole content of a message, or a part of one. */
  datatype Spot = Whole(i: nat) | PartOf(i: nat, j: nat)

  predicate IsAt(ms: seq<Message>, s: Spot, text: string) {
    match s
    case Whole(i) => i < |ms| && ms[i].content == Text(text)
    case PartOf(i, j) => i < |ms| && ms[i].content.Parts? && j < |ms[i].content.parts|
                         && ms[i].content.parts[j] == TextPart(text)
  }

  /** All the places at which a text stands. */
  function Spots(ms: seq<Message>, text: string): set<Spot> {
    (set i: nat | i < |ms| && ms[i].content == Text(text) :: Whole(i)) +
    (set i: nat, j: nat | i < |ms| && ms[i].content.Parts? && j < |ms[i].content.parts|
                          && ms[i].content.parts[j] == TextPart(text) :: PartOf(i, j))
  }

  function PartTexts(parts: seq<Part>): seq<string> {
    if parts == [] then [] else
      var n := |parts| - 1;
      PartTexts(parts[..n]) + if parts[n].TextPart? then [parts[n].text] else []
  }

  function TextsIn(c: Content): seq<string> {
    match c
    case Text(s) => [s]
    case Parts(ps) => PartTexts(ps)
    case NoText => []
  }

  function Flat(ms: seq<Message>): seq<string> {
    if ms == [] then [] else Flat(ms[..|ms|-1]) + TextsIn(ms[|ms|-1].content)
  }

  /** The places of a text among the parts of one content. */
  function PartSpots(i: nat, parts: seq<Part>, text: string): set<Spot> {
    set j: nat | j < |parts| && parts[j] == TextPart(text) :: PartOf(i, j)
  }

  lemma PartSpotsStep(i: nat, parts: seq<Part>, text: string)
    requires parts != []
    ensures var n := |parts| - 1;
            PartSpots(i, parts, text) ==
            PartSpots(i, parts[..n], text) + if parts[n] == TextPart(text) then {PartOf(i, n)} else {}
    ensures PartOf(i, |parts| - 1) !in PartSpots(i, parts[..|parts|-1], text)
  {
  }

  lemma {:induction false} PartsCounted(i: nat, parts: seq<Part>, text: string)
    ensures multiset(PartTexts(parts))[text] == |PartSpots(i, parts, text)|
  {
    hide PartSpots;
    if parts == [] {
      NoPartSpots(i, text);
    } else {
      PartsCounted(i, parts[..|parts|-1], text);
      PartSpotsStep(i, parts, text);
    }
  }

  lemma NoPartSpots(i: nat, text: string)
    ensures PartSpots(i, [], text) == {}
  {
  }

  /** The places of a text in the content of message `i`. */
  function SpotsIn(i: nat, c: Content, text: string): set<Spot> {
    match c
    case Text(t) => if t == text then {Whole(i)} else {}
    case Parts(ps) => PartSpots(i, ps, text)
    case NoText => {}
  }

  lemma SpotsInCounted(i: nat, c: Content, text: string)
    ensures multiset(TextsIn(c))[text] == |SpotsIn(i, c, text)|
  {
    hide PartSpots;
    if c.Parts? {
      PartsCounted(i, c.parts, text);
    }
  }

  lemma SpotsAre(ms: seq<Message>, text: string, s: Spot)
    ensures s in Spots(ms, text) <==> IsAt(ms, s, text)
  {
  }

  lemma SpotsInAre(i: nat, c: Content, text: string, s: Spot)
    ensures s in SpotsIn(i, c, text) <==>
            match s
            case Whole(k) => k == i && c == Text(text)
            case PartOf(k, j) => k == i && c.Parts? && j < |c.parts| && c.parts[j] == TextPart(text)
  {
  }

  lemma SpotsStep(ms: seq<Message>, text: string)
    requires ms != []
    ensures var n := |ms| - 1;
            && Spots(ms, text) == Spots(ms[..n], text) + SpotsIn(n, ms[n].content, text)
            && Spots(ms[..n], text) !! SpotsIn(n, ms[n].content, text)
  {
    hide Spots, SpotsIn;
    var n := |ms| - 1;
    forall s
      ensures s in Spots(ms, text) <==> s in Spots(ms[..n], text) || s in SpotsIn(n, ms[n].content, text)
      ensures !(s in Spots(ms[..n], text) && s in SpotsIn(n, ms[n].content, text))
    {
      SpotsAre(ms, text, s);
      SpotsAre(ms[..n], text, s);
      SpotsInAre(n, ms[n].content, text, s);
    }
  }

  /** The list holds every text exactly as often as it stands in the messages. */
  lemma {:induction false} FlatExactly(ms: seq<Message>, text: string)
    ensures multiset(Flat(ms))[text] == |Spots(ms, text)|
    ensures forall s :: s in Spots(ms, text) <==> IsAt(ms, s, text)
  {
    hide Spots, SpotsIn, TextsIn, IsAt;
    forall s ensures s in Spots(ms, text) <==> IsAt(ms, s, text) {
      SpotsAre(ms, text, s);
    }
    if ms == [] {
      NoSpots(text);
    } else {
      var n := |ms| - 1;
      FlatExactly(ms[..n], text);
      SpotsStep(ms, text);
      SpotsInCounted(n, ms[n].content, text);
    }
  }

  lemma NoSpots(text: string)
    ensures Spots([], text) == {}
  {
  }

  // ----- The estimate -----

  function SumOver(enc: Encoder, texts: seq<string>): nat {
    if texts == [] then 0 else SumOver(enc, texts[..|texts|-1]) + EstimateTokens(enc, texts[|texts|-1])
  }

  lemma {:induction false} SumConcat(enc: Encoder, xs: seq<string>, ys: seq<string>)
    ensures SumOver(enc, xs + ys) == SumOver(enc, xs) + SumOver(enc, ys)
    decreases |ys|
  {
    hide EstimateTokens;
    if ys == [] {
      assert xs + ys == xs;
    } else {
      assert (xs + ys)[..|xs + ys|-1] == xs + ys[..|ys|-1];
      SumConcat(enc, xs, ys[..|ys|-1]);
    }
  }

  lemma SumOfOne(enc: Encoder, text: string)
    ensures SumOver(enc, [text]) == EstimateTokens(enc, text)
  {
    hide EstimateTokens;
    assert [text][..0] == [];
  }

  lemma {:induction false} PartsAreSummed(enc: Encoder, parts: seq<Part>)
    ensures PartsTokens(enc, parts) == SumOver(enc, PartTexts(parts))
  {
    hide EstimateTokens;
    if parts != [] {
      var n := |parts| - 1;
      PartsAreSummed(enc, parts[..n]);
      if parts[n].TextPart? {
        SumConcat(enc, PartTexts(parts[..n]), [parts[n].text]);
        SumOfOne(enc, parts[n].text);
      } else {
        assert PartTexts(parts[..n]) + [] == PartTexts(parts[..n]);
      }
    }
  }

  lemma ContentIsSummed(enc: Encoder, m: Message)
    ensures MessageTokens(enc, m) == 4 + SumOver(enc, TextsIn(m.content))
  {
    hide EstimateTokens;
    match m.content
    case Text(s) => SumOfOne(enc, s);
    case Parts(ps) => PartsAreSummed(enc, ps);
    case NoText =>
  }

  /** The estimate is four for every message and the tokens of every text in them. */
  lemma {:induction false} EstimateIsSum(enc: Encoder, ms: seq<Message>)
    ensures Estimate(enc, ms) == 4 * |ms| + SumOver(enc, Flat(ms))
  {
    hide EstimateTokens, MessageTokens;
    if ms != [] {
      var n := |ms| - 1;
      EstimateIsSum(enc, ms[..n]);
      ContentIsSummed(enc, ms[n]);
      SumConcat(enc, Flat(ms[..n]), TextsIn(ms[n].content));
    }
  }

  /** The tokens of one text: none when it is empty, what the tokenizer says, or one for every four characters. */
  lemma TokensByValue(enc: Encoder, text: string)
    ensures text == "" ==> EstimateTokens(enc, text) == 0
    ensures text != "" && enc(text).Some? ==> EstimateTokens(enc, text) == enc(text).value
    ensures text != "" && enc(text).None? ==>
              var t := EstimateTokens(enc, text);
              t >= 1 && 4 * t <= Max(|text|, 4) && |text| < 4 * t + 4
  {
  }

  lemma WithoutOne(ys: seq<string>, k: nat)
    requires k < |ys|
    ensures multiset(ys) == multiset(ys[..k] + ys[k+1..]) + multiset{ys[k]}
  {
    assert ys == ys[..k] + ([ys[k]] + ys[k+1..]);
  }

  lemma SumWithoutOne(enc: Encoder, ys: seq<string>, k: nat)
    requires k < |ys|
    ensures SumOver(enc, ys) == SumOver(enc, ys[..k] + ys[k+1..]) + EstimateTokens(enc, ys[k])
  {
    hide EstimateTokens, SumOver;
    assert ys == ys[..k] + ([ys[k]] + ys[k+1..]);
    SumConcat(enc, ys[..k], [ys[k]] + ys[k+1..]);
    SumConcat(enc, [ys[k]], ys[k+1..]);
    SumOfOne(enc, ys[k]);
    SumConcat(enc, ys[..k], ys[k+1..]);
  }

  /** Sums do not depend on the order of the texts. */
  lemma {:induction false} SumOfMultiset(enc: Encoder, xs: seq<string>, ys: seq<string>)
    requires multiset(xs) == multiset(ys)
    ensures SumOver(enc, xs) == SumOver(enc, ys)
    decreases |xs|
  {
    hide EstimateTokens, SumOver;
    assert |multiset(xs)| == |xs| && |multiset(ys)| == |ys|;
    if xs == [] {
      assert ys == [];
    } else {
      assert xs[0] in multiset(ys);
      var k :| 0 <= k < |ys| && ys[k] == xs[0];
      WithoutOne(xs, 0);
      WithoutOne(ys, k);
      var xs', ys' := xs[..0] + xs[1..], ys[..k] + ys[k+1..];
      CancelOne(multiset(xs'), multiset(ys'), xs[0]);
      SumOfMultiset(enc, xs', ys');
      SumWithoutOne(enc, xs, 0);
      SumWithoutOne(enc, ys, k);
    }
  }

  lemma CancelOne(a: multiset<string>, b: multiset<string>, x: string)
    requires a + multiset{x} == b + multiset{x}
    ensures a == b
  {
    assert a == (a + multiset{x}) - multiset{x} && b == (b + multiset{x}) - multiset{x};
  }

  /** Messages in which the same texts stand equally often, and as many of them, have the same estimate. */
  lemma SameTextsSameEstimate(enc: Encoder, ms: seq<Message>, ns: seq<Message>)
    requires |ms| == |ns|
    requires forall text :: |Spots(ms, text)| == |Spots(ns, text)|
    ensures Estimate(enc, ms) == Estimate(enc, ns)
  {
    hide EstimateTokens, Spots, Flat;
    EstimateIsSum(enc, ms);
    EstimateIsSum(enc, ns);
    forall text ensures multiset(Flat(ms))[text] == multiset(Flat(ns))[text] {
      FlatExactly(ms, text);
      FlatExactly(ns, text);
    }
    assert multiset(Flat(ms)) == multiset(Flat(ns));
    SumOfMultiset(enc, Flat(ms), Flat(ns));
  }

  // ----- Parts -----

  lemma {:induction false} PartTextsConcat(xs: seq<Part>, ys: seq<Part>)
    ensures PartTexts(xs + ys) == PartTexts(xs) + PartTexts(ys)
    decreases |ys|
  {
    if ys == [] {
      assert xs + ys == xs;
    } else {
      assert (xs + ys)[..|xs + ys|-1] == xs + ys[..|ys|-1];
      PartTextsConcat(xs, ys[..|ys|-1]);
    }
  }

  lemma OnePart(p: Part)
    ensures PartTexts([p]) == if p.TextPart? then [p.text] else []
  {
    assert [p][..0] == [];
  }

  /** A part that is no text makes no difference, wherever it stands. */
  lemma OtherPartsAreFree(enc: Encoder, before: seq<Message>, role: string, xs: seq<Part>, ys: seq<Part>, after: seq<Message>)
    ensures Estimate(enc, before + [Message(role, Parts(xs + [OtherPart] + ys))] + after) ==
            Estimate(enc, before + [Message(role, Parts(xs + ys))] + after)
  {
    hide EstimateTokens, MessageTokens, Estimate;
    var m, n := Message(role, Parts(xs + [OtherPart] + ys)), Message(role, Parts(xs + ys));
    EstimateInside(enc, before, m, after);
    EstimateInside(enc, before, n, after);
    ContentIsSummed(enc, m);
    ContentIsSummed(enc, n);
    PartTextsConcat(xs + [OtherPart], ys);
    PartTextsConcat(xs, [OtherPart]);
    PartTextsConcat(xs, ys);
    OnePart(OtherPart);
    assert PartTexts(xs) + [] == PartTexts(xs);
  }

  lemma EstimateInside(enc: Encoder, before: seq<Message>, m: Message, after: seq<Message>)
    ensures Estimate(enc, before + [m] + after) == Estimate(enc, before) + MessageTokens(enc, m) + Estimate(enc, after)
  {
    hide MessageTokens;
    EstimateConcat(enc, before + [m], after);
    EstimateConcat(enc, before, [m]);
    EstimateOne(enc, m);
  }

  /** One message for each text. */
  function AsMessages(role: string, texts: seq<string>): seq<Message> {
    seq(|texts|, i requires 0 <= i < |texts| => Message(role, Text(texts[i])))
  }

  lemma {:induction false} FlatAsMessages(role: string, texts: seq<string>)
    ensures Flat(AsMessages(role, texts)) == texts
  {
    if texts != [] {
      var n := |texts| - 1;
      FlatAsMessages(role, texts[..n]);
      assert AsMessages(role, texts)[..n] == AsMessages(role, texts[..n]);
    }
  }

  /** Sending the parts of a message as messages of their own changes the estimate by the overhead per message only. */
  lemma SplittingCostsOverhead(enc: Encoder, before: seq<Message>, role: string, parts: seq<Part>, after: seq<Message>)
    ensures var texts := PartTexts(parts);
            Estimate(enc, before + AsMessages(role, texts) + after) ==
            Estimate(enc, before + [Message(role, Parts(parts))] + after) + 4 * (|texts| - 1)
  {
    hide EstimateTokens, MessageTokens, Estimate;
    var texts := PartTexts(parts);
    var m := Message(role, Parts(parts));
    EstimateInside(enc, before, m, after);
    ContentIsSummed(enc, m);
    EstimateConcat(enc, before + AsMessages(role, texts), after);
    EstimateConcat(enc, before, AsMessages(role, texts));
    EstimateIsSum(enc, AsMessages(role, texts));
    FlatAsMessages(role, texts);
  }
}
