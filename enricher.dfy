/** The reply enricher: supportive blocks appended to the model's reply, one
    chosen at random and two chosen by keywords in the user's text. */
module Enricher {
  import opened Text

  const Quotes: seq<string> := [
    "You are stronger than you think.",
    "This too shall pass.",
    "Be patient with yourself. Healing takes time.",
    "Your feelings are valid.",
    "Progress, not perfection."
  ]

  const BreathingExercise: string :=
    "Let's try a short breathing exercise:\n"
    + "- Inhale slowly through your nose for 4 seconds.\n"
    + "- Hold your breath for 4 seconds.\n"
    + "- Exhale gently through your mouth for 4 seconds.\n"
    + "Repeat this for a minute. Let your mind settle."

  const GratitudePrompt: string :=
    "Take a moment to reflect on something you're grateful for today.\n"
    + "It could be a small moment, a person, or even your own resilience."

  /** A quote is added when the first draw falls below this. */
  const QuoteProbability: real := 0.3

  /** The reply and the extras are joined with a blank line. */
  const Separator: string := "\n\n"

  /** The values `Math.random()` supplies: `fire` decides whether a quote is
      added, `pick` chooses which one. Both lie in [0, 1). */
  datatype Draws = Draws(fire: real, pick: real)

  predicate ValidDraws(d: Draws) {
    0.0 <= d.fire < 1.0 && 0.0 <= d.pick < 1.0
  }

  predicate QuoteFires(d: Draws) {
    d.fire < QuoteProbability
  }

  /** `Math.floor(pick * motivationalQuotes.length)`, always a valid index. */
  function QuoteIndex(pick: real): (i: int)
    requires 0.0 <= pick < 1.0
    ensures 0 <= i < |Quotes|
    ensures i as real <= pick * |Quotes| as real < i as real + 1.0
  {
    (pick * |Quotes| as real).Floor
  }

  /** The blocks that can follow a reply; a quote block carries the quote
      it shows. */
  datatype Extra = QuoteExtra(quote: string) | BreathingExtra | GratitudeExtra

  /** Position of each kind of block in the fixed evaluation order. */
  function Rank(e: Extra): nat {
    match e
    case QuoteExtra(_) => 0
    case BreathingExtra => 1
    case GratitudeExtra => 2
  }

  /** The blocks appear in evaluation order, each kind at most once. */
  predicate Ordered(extras: seq<Extra>) {
    forall i, j :: 0 <= i < j < |extras| ==> Rank(extras[i]) < Rank(extras[j])
  }

  /** The text pushed for each block: a label, then the quote in double
      quotes, the breathing exercise or the gratitude prompt. */
  function Render(e: Extra): (r: string)
    ensures e.QuoteExtra? ==> Contains(r, e.quote)
    ensures e.BreathingExtra? ==> Contains(r, BreathingExercise)
    ensures e.GratitudeExtra? ==> Contains(r, GratitudePrompt)
  {
    match e
    case QuoteExtra(q) => (
      var tag := "\U{1F4AC} *Quote:* \"";
      ContainsMiddle(tag, q, "\"");
      tag + q + "\"")
    case BreathingExtra => (
      var tag := "\U{1F9D8} *Breathing Exercise:* ";
      ContainsMiddle(tag, BreathingExercise, "");
      assert tag + BreathingExercise + "" == tag + BreathingExercise;
      tag + BreathingExercise)
    case GratitudeExtra => (
      var tag := "\U{1F4D3} *Gratitude Prompt:* ";
      ContainsMiddle(tag, GratitudePrompt, "");
      assert tag + GratitudePrompt + "" == tag + GratitudePrompt;
      tag + GratitudePrompt)
  }

  function RenderAll(extras: seq<Extra>): (r: seq<string>)
    ensures |r| == |extras|
  {
    seq(|extras|, k requires 0 <= k < |extras| => Render(extras[k]))
  }

  /** `text.toLowerCase().includes(word)`. */
  predicate Mentions(text: string, word: string) {
    Contains(ToLower(text), word)
  }

  predicate BreathingTriggered(text: string) {
    Mentions(text, "anxious") || Mentions(text, "panic")
  }

  predicate GratitudeTriggered(text: string) {
    Mentions(text, "empty") || Mentions(text, "unmotivated")
  }

  function Optional(present: bool, e: Extra): seq<Extra> {
    if present then [e] else []
  }

  /** The extras for one reply, in evaluation order: at most three, and none
      exactly when the quote draw misses and neither keyword pair occurs. */
  function Extras(text: string, d: Draws): (r: seq<Extra>)
    requires ValidDraws(d)
    ensures |r| <= 3
    ensures r == [] <==> !QuoteFires(d) && !BreathingTriggered(text) && !GratitudeTriggered(text)
  {
    Optional(QuoteFires(d), QuoteExtra(Quotes[QuoteIndex(d.pick)]))
    + Optional(BreathingTriggered(text), BreathingExtra)
    + Optional(GratitudeTriggered(text), GratitudeExtra)
  }

  /** At most one quote, the one the pick selects, present exactly when the
      first draw fires; the breathing block exactly when the user text
      mentions "anxious" or "panic"; the gratitude block exactly when it
      mentions "empty" or "unmotivated"; all in that order. */
  lemma ExtrasSpec(text: string, d: Draws)
    requires ValidDraws(d)
    ensures Ordered(Extras(text, d)) && |Extras(text, d)| <= 3
    ensures QuoteExtra(Quotes[QuoteIndex(d.pick)]) in Extras(text, d) <==> QuoteFires(d)
    ensures forall k :: 0 <= k < |Extras(text, d)| && Extras(text, d)[k].QuoteExtra? ==>
      Extras(text, d)[k].quote == Quotes[QuoteIndex(d.pick)]
    ensures BreathingExtra in Extras(text, d) <==> BreathingTriggered(text)
    ensures GratitudeExtra in Extras(text, d) <==> GratitudeTriggered(text)
  {
  }

  /** The component's sequence of conditional pushes onto `extras`. */
  method CollectExtras(text: string, d: Draws) returns (extras: seq<Extra>)
    requires ValidDraws(d)
    ensures extras == Extras(text, d)
  {
    extras := [];
    if d.fire < QuoteProbability {
      extras := extras + [QuoteExtra(Quotes[(d.pick * |Quotes| as real).Floor])];
    }
    var lower := ToLower(text);
    if Contains(lower, "anxious") || Contains(lower, "panic") {
      extras := extras + [BreathingExtra];
    }
    if Contains(lower, "empty") || Contains(lower, "unmotivated") {
      extras := extras + [GratitudeExtra];
    }
  }

  /** `[reply, ...extras].join('\n\n')` with `reply` the trimmed model text,
      which therefore opens the message. */
  function EnrichedReply(raw: string, text: string, d: Draws): (r: string)
    requires ValidDraws(d)
    ensures StartsWith(r, Trim(raw))
  {
    Join([Trim(raw)] + RenderAll(Extras(text, d)), Separator)
  }

  /** The part a block contributes: a blank line and its text when present. */
  function Piece(present: bool, e: Extra): string
  {
    if present then Separator + Render(e) else ""
  }

  lemma RenderAllAppend(a: seq<Extra>, b: seq<Extra>)
    ensures RenderAll(a + b) == RenderAll(a) + RenderAll(b)
  {
    assert forall k :: 0 <= k < |a + b| ==> (a + b)[k] == if k < |a| then a[k] else b[k - |a|];
  }

  /** A block's share of the join is its piece. */
  lemma PieceOfOptional(present: bool, e: Extra)
    ensures Prefixed(RenderAll(Optional(present, e)), Separator) == Piece(present, e)
  {
    if present {
      assert RenderAll(Optional(present, e)) == [Render(e)];
    } else {
      assert RenderAll(Optional(present, e)) == [];
    }
  }

  /** The enriched reply is the trimmed model text, then the quote, then the
      breathing block, then the gratitude block, each present one preceded by
      a blank line. */
  lemma EnrichedReplyLayout(raw: string, text: string, d: Draws)
    requires ValidDraws(d)
    ensures EnrichedReply(raw, text, d) ==
      Trim(raw)
      + Piece(QuoteFires(d), QuoteExtra(Quotes[QuoteIndex(d.pick)]))
      + Piece(BreathingTriggered(text), BreathingExtra)
      + Piece(GratitudeTriggered(text), GratitudeExtra)
  {
    var q := Optional(QuoteFires(d), QuoteExtra(Quotes[QuoteIndex(d.pick)]));
    var b := Optional(BreathingTriggered(text), BreathingExtra);
    var g := Optional(GratitudeTriggered(text), GratitudeExtra);
    var rq, rb, rg := RenderAll(q), RenderAll(b), RenderAll(g);
    RenderAllAppend(q + b, g);
    RenderAllAppend(q, b);
    JoinLayout(Trim(raw), rq, rb, rg, Separator);
    PieceOfOptional(QuoteFires(d), QuoteExtra(Quotes[QuoteIndex(d.pick)]));
    PieceOfOptional(BreathingTriggered(text), BreathingExtra);
    PieceOfOptional(GratitudeTriggered(text), GratitudeExtra);
  }

  /** The trimmed model text always opens the reply, and the reply is exactly
      that text when no extra is added; with any extra it is strictly longer. */
  lemma EnrichedReplyStartsWithReply(raw: string, text: string, d: Draws)
    requires ValidDraws(d)
    ensures StartsWith(EnrichedReply(raw, text, d), Trim(raw))
    ensures EnrichedReply(raw, text, d) == Trim(raw)
        <==> !QuoteFires(d) && !BreathingTriggered(text) && !GratitudeTriggered(text)
  {
    var rendered := RenderAll(Extras(text, d));
    JoinCons(Trim(raw), rendered, Separator);
    StartsWithAppend(Trim(raw), Prefixed(rendered, Separator));
    PrefixedEmptyIff(rendered, Separator);
    ExtrasSpec(text, d);
  }

  /** Every extra's text can be found in the reply. */
  lemma EnrichedReplyContainsExtra(raw: string, text: string, d: Draws, k: nat)
    requires ValidDraws(d) && k < |Extras(text, d)|
    ensures Contains(EnrichedReply(raw, text, d), Render(Extras(text, d)[k]))
  {
    var e := Extras(text, d);
    var rendered := RenderAll(e);
    JoinContainsLaterPart(Trim(raw), rendered, Separator, k);
    assert rendered[k] == Render(e[k]);
    assert EnrichedReply(raw, text, d) == Join([Trim(raw)] + rendered, Separator);
  }

  /** Each block that fires can be found in the reply text. */
  lemma EnrichedReplyContainsBlocks(raw: string, text: string, d: Draws)
    requires ValidDraws(d)
    ensures QuoteFires(d) ==> Contains(EnrichedReply(raw, text, d), Render(QuoteExtra(Quotes[QuoteIndex(d.pick)])))
    ensures BreathingTriggered(text) ==> Contains(EnrichedReply(raw, text, d), Render(BreathingExtra))
    ensures GratitudeTriggered(text) ==> Contains(EnrichedReply(raw, text, d), Render(GratitudeExtra))
  {
    var e := Extras(text, d);
    ExtrasSpec(text, d);
    if QuoteFires(d) {
      var k :| 0 <= k < |e| && e[k] == QuoteExtra(Quotes[QuoteIndex(d.pick)]);
      EnrichedReplyContainsExtra(raw, text, d, k);
    }
    if BreathingTriggered(text) {
      var k :| 0 <= k < |e| && e[k] == BreathingExtra;
      EnrichedReplyContainsExtra(raw, text, d, k);
    }
    if GratitudeTriggered(text) {
      var k :| 0 <= k < |e| && e[k] == GratitudeExtra;
      EnrichedReplyContainsExtra(raw, text, d, k);
    }
  }

  /** A word without upper-case letters that occurs in the text is
      mentioned by it. */
  lemma MentionsAt(text: string, word: string, i: nat)
    requires OccursAt(text, word, i)
    requires forall k :: 0 <= k < |word| ==> !('A' <= word[k] <= 'Z')
    ensures Mentions(text, word)
  {
    var lower := ToLower(text);
    forall k | 0 <= k < |word|
      ensures lower[i + k] == word[k]
    {
      assert text[i + k] == text[i..i + |word|][k];
    }
    assert lower[i..i + |word|] == word;
    assert OccursAt(lower, word, i);
    ContainsIff(lower, word);
  }

  /** The user text "I feel so anxious today" always brings the breathing
      exercise. */
  lemma AnxiousBringsBreathing(raw: string, d: Draws)
    requires ValidDraws(d)
    ensures Contains(EnrichedReply(raw, "I feel so anxious today", d), Render(BreathingExtra))
  {
    MentionsAt("I feel so anxious today", "anxious", 10);
    EnrichedReplyContainsBlocks(raw, "I feel so anxious today", d);
  }

  /** The user text "I feel empty and unmotivated" always brings the
      gratitude prompt. */
  lemma EmptyBringsGratitude(raw: string, d: Draws)
    requires ValidDraws(d)
    ensures Contains(EnrichedReply(raw, "I feel empty and unmotivated", d), Render(GratitudeExtra))
  {
    MentionsAt("I feel empty and unmotivated", "empty", 7);
    EnrichedReplyContainsBlocks(raw, "I feel empty and unmotivated", d);
  }

  /** Keyword matching ignores ASCII case: lower-casing the user text first
      changes neither trigger nor the extras. */
  lemma KeywordsIgnoreCase(text: string, d: Draws)
    requires ValidDraws(d)
    ensures BreathingTriggered(ToLower(text)) <==> BreathingTriggered(text)
    ensures GratitudeTriggered(ToLower(text)) <==> GratitudeTriggered(text)
    ensures Extras(ToLower(text), d) == Extras(text, d)
  {
    ToLowerIdempotent(text);
  }
}
