/** The admin dashboard's logic: per-answer counts over the fetched responses,
    the colour class and emoji for an answer, and which of the three list
    states is shown. The fetch itself and all rendering are not modelled. */
module Admin {
  import opened Js
  import opened Kv
  import opened Server

  /** `responses.filter(r => r.value.answer === answer)`. */
  function Matching(responses: seq<Entry<Record>>, answer: string): (r: seq<Entry<Record>>)
    ensures forall i :: 0 <= i < |r| ==> r[i].value.answer == Str(answer)
    ensures multiset(r) <= multiset(responses)
    ensures |r| <= |responses|
  {
    if responses == [] then []
    else
      var rest := Matching(responses[1..], answer);
      assert responses == [responses[0]] + responses[1..];
      if responses[0].value.answer == Str(answer) then [responses[0]] + rest else rest
  }

  /** The answers of the responses, in order. */
  function Answers(responses: seq<Entry<Record>>): (r: seq<JsValue>)
    ensures |r| == |responses|
    ensures forall i :: 0 <= i < |r| ==> r[i] == responses[i].value.answer
  {
    if responses == [] then [] else [responses[0].value.answer] + Answers(responses[1..])
  }

  /** The filter's length is the number of responses whose answer is exactly `answer`. */
  lemma {:induction false} MatchingCounts(responses: seq<Entry<Record>>, answer: string)
    ensures |Matching(responses, answer)| == multiset(Answers(responses))[Str(answer)]
  {
    if responses != [] {
      MatchingCounts(responses[1..], answer);
      assert Answers(responses) == [responses[0].value.answer] + Answers(responses[1..]);
    }
  }

  datatype Stats = Stats(yes: nat, no: nat, maybe: nat)

  /** The three counters shown above the list. */
  function ComputeStats(responses: seq<Entry<Record>>): (s: Stats)
    ensures s.yes == multiset(Answers(responses))[Str("yes")]
    ensures s.no == multiset(Answers(responses))[Str("no")]
    ensures s.maybe == multiset(Answers(responses))[Str("maybe")]
  {
    MatchingCounts(responses, "yes");
    MatchingCounts(responses, "no");
    MatchingCounts(responses, "maybe");
    Stats(|Matching(responses, "yes")|, |Matching(responses, "no")|, |Matching(responses, "maybe")|)
  }

  predicate IsKnownAnswer(v: JsValue) {
    v.Str? && (v.s == "yes" || v.s == "no" || v.s == "maybe")
  }

  /** How many responses carry an answer outside the three. */
  function UnknownCount(responses: seq<Entry<Record>>): nat {
    if responses == [] then 0
    else (if IsKnownAnswer(responses[0].value.answer) then 0 else 1) + UnknownCount(responses[1..])
  }

  /** Every response is counted once: in one of the three counters or as unknown. */
  lemma {:induction false} CountsPartition(responses: seq<Entry<Record>>)
    ensures var s := ComputeStats(responses);
      s.yes + s.no + s.maybe + UnknownCount(responses) == |responses|
  {
    if responses != [] {
      var h, tail := responses[0].value.answer, responses[1..];
      CountsPartition(tail);
      assert Answers(responses) == [h] + Answers(tail);
      assert multiset(Answers(responses)) == multiset{h} + multiset(Answers(tail));
      CountedOnce(h);
    }
  }

  /** One answer adds one to exactly one of the three counters or to the unknown count. */
  lemma CountedOnce(h: JsValue)
    ensures (if IsKnownAnswer(h) then 0 else 1)
      + multiset{h}[Str("yes")] + multiset{h}[Str("no")] + multiset{h}[Str("maybe")] == 1
  {
  }

  lemma {:induction false} NoUnknownIffAllKnown(responses: seq<Entry<Record>>)
    ensures UnknownCount(responses) == 0
      <==> forall i :: 0 <= i < |responses| ==> IsKnownAnswer(responses[i].value.answer)
  {
    if responses != [] {
      NoUnknownIffAllKnown(responses[1..]);
      assert forall i :: 1 <= i < |responses| ==> responses[i] == responses[1..][i - 1];
    }
  }

  /** The counters never add up to more than the total shown, and they add up
      to exactly the total when, and only when, every answer is one of the three. */
  lemma StatsTotal(responses: seq<Entry<Record>>)
    ensures var s := ComputeStats(responses);
      s.yes + s.no + s.maybe <= |responses|
    ensures var s := ComputeStats(responses);
      (s.yes + s.no + s.maybe == |responses|)
      <==> (forall i :: 0 <= i < |responses| ==> IsKnownAnswer(responses[i].value.answer))
  {
    CountsPartition(responses);
    NoUnknownIffAllKnown(responses);
  }

  /** `getAnswerColor`. */
  function AnswerColor(answer: JsValue): (r: string)
    ensures !IsKnownAnswer(answer) ==> r == "bg-gray-100 text-gray-800 border-gray-300"
    ensures IsKnownAnswer(answer) ==> r != "bg-gray-100 text-gray-800 border-gray-300"
  {
    if !answer.Str? then "bg-gray-100 text-gray-800 border-gray-300"
    else if answer.s == "yes" then "bg-green-100 text-green-800 border-green-300"
    else if answer.s == "no" then "bg-red-100 text-red-800 border-red-300"
    else if answer.s == "maybe" then "bg-purple-100 text-purple-800 border-purple-300"
    else "bg-gray-100 text-gray-800 border-gray-300"
  }

  /** `getAnswerEmoji`. */
  function AnswerEmoji(answer: JsValue): (r: string)
    ensures !IsKnownAnswer(answer) ==> r == "💌"
    ensures IsKnownAnswer(answer) ==> r != "💌"
  {
    if !answer.Str? then "💌"
    else if answer.s == "yes" then "💕"
    else if answer.s == "no" then "💔"
    else if answer.s == "maybe" then "🤔"
    else "💌"
  }

  /** A known answer's class and emoji tell it apart from every other answer,
      known or not. */
  lemma AnswerStylesDistinguish(a: JsValue, b: JsValue)
    ensures IsKnownAnswer(a) && a != b ==> AnswerColor(a) != AnswerColor(b) && AnswerEmoji(a) != AnswerEmoji(b)
  {
    if IsKnownAnswer(a) && a != b {
      if IsKnownAnswer(b) {
        KnownStylesDistinct(a, b);
      }
    }
  }

  /** The three known answers get pairwise-distinct classes and emoji. */
  lemma KnownStylesDistinct(a: JsValue, b: JsValue)
    requires IsKnownAnswer(a) && IsKnownAnswer(b) && a != b
    ensures AnswerColor(a) != AnswerColor(b) && AnswerEmoji(a) != AnswerEmoji(b)
  {
  }

  datatype ListView = LoadingView | EmptyView | ResponsesView

  /** Which of the three list states the dashboard renders. */
  function View(loading: bool, responses: seq<Entry<Record>>): (v: ListView)
    ensures v == EmptyView <==> !loading && |responses| == 0
    ensures v == LoadingView <==> loading
  {
    if loading then LoadingView
    else if |responses| == 0 then EmptyView
    else ResponsesView
  }
}
