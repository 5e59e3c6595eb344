/**
 * Expansion of a reward's compact `rewardRank` text ("1-3,5") into the list
 * of ranks it covers, as done when a contest becomes the active contest.
 * JavaScript's `parseInt` is modelled closely enough that malformed parts
 * yield NaN exactly where the widget would get NaN.
 */
module RewardRanks {
  import opened Types
  import Seqs

  /** Characters `parseInt` skips before the number (ASCII and common Unicode blanks). */
  predicate IsJsSpace(c: char)
  {
    c == ' ' || c == '\t' || c == '\n' || c == '\r' || c == '\U{000B}' || c == '\U{000C}'
    || c == '\U{00A0}' || c == '\U{FEFF}' || c == '\U{2028}' || c == '\U{2029}'
  }

  /** The value of a digit in the given base (10 or 16), or -1 when it is not one. */
  function DigitValue(c: char, base: nat): (v: int)
    ensures -1 <= v < base || base < 10
  {
    if '0' <= c <= '9' && (c as int - '0' as int) < base then c as int - '0' as int
    else if base == 16 && 'a' <= c <= 'f' then c as int - 'a' as int + 10
    else if base == 16 && 'A' <= c <= 'F' then c as int - 'A' as int + 10
    else -1
  }

  predicate IsDigit(c: char, base: nat)
  {
    DigitValue(c, base) >= 0
  }

  function SkipSpaces(s: string): (r: string)
    ensures |r| <= |s| && r == s[|s| - |r|..]
    ensures |r| > 0 ==> !IsJsSpace(r[0])
  {
    if |s| > 0 && IsJsSpace(s[0]) then SkipSpaces(s[1..]) else s
  }

  /** The number of leading digits of `s`. */
  function DigitPrefix(s: string, base: nat): (k: nat)
    ensures k <= |s|
    ensures forall i :: 0 <= i < k ==> IsDigit(s[i], base)
    ensures k < |s| ==> !IsDigit(s[k], base)
  {
    if |s| > 0 && IsDigit(s[0], base) then 1 + DigitPrefix(s[1..], base) else 0
  }

  /** The value of a digit string, most significant digit first. */
  function DigitsValue(ds: string, base: nat): nat
    requires forall i :: 0 <= i < |ds| ==> IsDigit(ds[i], base)
  {
    if |ds| == 0 then 0
    else
      var init := ds[..|ds| - 1];
      assert forall i :: 0 <= i < |init| ==> init[i] == ds[i];
      assert IsDigit(ds[|ds| - 1], base);
      var high: nat := DigitsValue(init, base);
      var low := DigitValue(ds[|ds| - 1], base);
      assert low >= 0;
      var shifted: nat := high * base;
      shifted + low
  }

  /** Unsigned digits in `base`; NaN when there is not even one digit. */
  function ParseDigits(s: string, base: nat): (r: RankNum)
    ensures r.Num? <==> |s| > 0 && IsDigit(s[0], base)
    ensures r.Num? ==> r.n >= 0
  {
    var k := DigitPrefix(s, base);
    if k == 0 then NaN else Num(DigitsValue(s[..k], base))
  }

  /** The digits after an optional `0x`/`0X` prefix, which selects base 16. */
  function ParseMagnitude(u: string): (r: RankNum)
    ensures |u| > 0 && '1' <= u[0] <= '9' ==> r.Num?
    ensures |u| == 0 || !IsDigit(u[0], 10) ==> r == NaN
    ensures r.Num? ==> r.n >= 0
  {
    if |u| >= 2 && u[0] == '0' && (u[1] == 'x' || u[1] == 'X') then ParseDigits(u[2..], 16)
    else ParseDigits(u, 10)
  }

  /**
   * `parseInt(s)` without a radix: leading blanks, an optional sign, a `0x`
   * prefix selecting base 16, then as many digits as there are; anything
   * after them is ignored.
   */
  function ParseInt(s: string): (r: RankNum)
    ensures var t := SkipSpaces(s); |t| == 0 ==> r == NaN
    ensures var t := SkipSpaces(s); |t| > 0 && '1' <= t[0] <= '9' ==> r.Num? && r.n >= 0
    ensures var t := SkipSpaces(s);
            |t| > 0 && t[0] != '-' && t[0] != '+' && !IsDigit(t[0], 10) ==> r == NaN
    ensures var t := SkipSpaces(s); |t| > 0 && t[0] == '-' && r.Num? ==> r.n <= 0
  {
    var t := SkipSpaces(s);
    if |t| > 0 && t[0] == '-' then
      match ParseMagnitude(t[1..])
      case NaN => NaN
      case Num(m) => Num(-m)
    else if |t| > 0 && t[0] == '+' then ParseMagnitude(t[1..])
    else ParseMagnitude(t)
  }

  /** The ascending integers lo..hi as parsed numbers; empty when lo > hi. */
  function Range(lo: int, hi: int): (r: seq<RankNum>)
    ensures |r| == if lo <= hi then hi - lo + 1 else 0
    ensures forall i :: 0 <= i < |r| ==> r[i] == Num(lo + i)
    decreases hi - lo
  {
    if lo > hi then [] else [Num(lo)] + Range(lo + 1, hi)
  }

  /**
   * One comma-separated part: `a-b` pushes a..b (nothing when either end is
   * NaN, since the loop test `i <= rangeEnd` is then false); any other part
   * pushes `parseInt(part)`, which may be NaN.
   */
  function ExpandPart(part: string): (r: seq<RankNum>)
    ensures '-' !in part ==> |r| == 1
    ensures '-' in part && |r| > 0 ==> r[0].Num? && forall i :: 0 <= i < |r| ==> r[i] == Num(r[0].n + i)
  {
    if '-' in part then
      var bounds := Seqs.Split(part, '-');
      assert |bounds| >= 2;
      match (ParseInt(bounds[0]), ParseInt(bounds[1]))
      case (Num(lo), Num(hi)) => Range(lo, hi)
      case _ => []
    else [ParseInt(part)]
  }

  function ExpandParts(parts: seq<string>): seq<RankNum>
  {
    if |parts| == 0 then [] else ExpandPart(parts[0]) + ExpandParts(parts[1..])
  }

  /** The expansion of a whole `rewardRank` string. */
  function ExpandRankText(text: string): (r: seq<RankNum>)
    ensures ',' !in text ==> r == ExpandPart(text)
  {
    var parts := Seqs.Split(text, ',');
    if ',' !in text then
      Seqs.SplitNoSeparator(text, ',');
      assert ExpandParts(parts) == ExpandPart(text) + ExpandParts([]);
      ExpandParts(parts)
    else
      ExpandParts(parts)
  }

  /** A string `rewardRank` becomes its expansion; any other value is kept. */
  function ExpandReward(reward: Reward): (r: Reward)
    ensures r.value == reward.value && r.symbol == reward.symbol
    ensures reward.rewardRank.RankText? ==> r.rewardRank == RankList(ExpandRankText(reward.rewardRank.text))
    ensures !reward.rewardRank.RankText? ==> r == reward
    ensures !r.rewardRank.RankText?
  {
    match reward.rewardRank
    case RankText(text) => reward.(rewardRank := RankList(ExpandRankText(text)))
    case _ => reward
  }

  /** The active contest's rewards after expansion, in the same order. */
  function ExpandRewards(rewards: seq<Reward>): (r: seq<Reward>)
    ensures |r| == |rewards|
    ensures forall i :: 0 <= i < |r| ==> r[i] == ExpandReward(rewards[i])
  {
    seq(|rewards|, i requires 0 <= i < |rewards| => ExpandReward(rewards[i]))
  }

  /** Expanding an already expanded reward list changes nothing. */
  lemma ExpandRewardsIdempotent(rewards: seq<Reward>)
    ensures ExpandRewards(ExpandRewards(rewards)) == ExpandRewards(rewards)
  {
  }

  // ---------------------------------------------------------------------
  // Reference semantics for well-formed rank texts.

  /** One well-formed part: a single rank or an inclusive range. */
  datatype RankSpec = Single(rank: nat) | Span(lo: nat, hi: nat)

  function DigitChar(d: nat): (c: char)
    requires d < 10
    ensures '0' <= c <= '9' && DigitValue(c, 10) == d
  {
    ('0' as int + d) as char
  }

  /** Decimal rendering of a natural number, without leading zeros. */
  function NatToString(n: nat): (s: string)
    ensures |s| >= 1
    ensures forall i :: 0 <= i < |s| ==> '0' <= s[i] <= '9'
    ensures s[0] == '0' ==> |s| == 1
  {
    if n < 10 then [DigitChar(n)] else NatToString(n / 10) + [DigitChar(n % 10)]
  }

  function RenderSpec(spec: RankSpec): string
  {
    match spec
    case Single(n) => NatToString(n)
    case Span(lo, hi) => NatToString(lo) + "-" + NatToString(hi)
  }

  function RenderSpecs(specs: seq<RankSpec>): seq<string>
    ensures |RenderSpecs(specs)| == |specs|
  {
    if |specs| == 0 then [] else [RenderSpec(specs[0])] + RenderSpecs(specs[1..])
  }

  /** The compact text the gateway sends for a list of rank specs. */
  function RenderRankText(specs: seq<RankSpec>): string
  {
    Seqs.Join(RenderSpecs(specs), ",")
  }

  /** The ranks a spec list denotes. */
  function Denote(specs: seq<RankSpec>): seq<RankNum>
  {
    if |specs| == 0 then []
    else
      (match specs[0]
       case Single(n) => [Num(n)]
       case Span(lo, hi) => Range(lo, hi))
      + Denote(specs[1..])
  }

  lemma NatToStringDigits(n: nat)
    ensures forall i :: 0 <= i < |NatToString(n)| ==> IsDigit(NatToString(n)[i], 10)
  {
    var s := NatToString(n);
    forall i | 0 <= i < |s|
      ensures IsDigit(s[i], 10)
    {
      assert '0' <= s[i] <= '9';
    }
  }

  lemma {:induction false} DigitsValueOfNatToString(n: nat)
    ensures forall i :: 0 <= i < |NatToString(n)| ==> IsDigit(NatToString(n)[i], 10)
    ensures DigitsValue(NatToString(n), 10) == n
  {
    NatToStringDigits(n);
    if n >= 10 {
      var s := NatToString(n);
      var p := NatToString(n / 10);
      DigitsValueOfNatToString(n / 10);
      assert s == p + [DigitChar(n % 10)];
      assert s[..|s| - 1] == p;
      assert s[|s| - 1] == DigitChar(n % 10);
      assert DigitsValue(s, 10) == DigitsValue(p, 10) * 10 + n % 10;
    }
  }

  /** `parseInt` of a plain decimal digit string without a leading `0x`. */
  lemma ParseIntOfDecimal(s: string)
    requires |s| >= 1
    requires forall i :: 0 <= i < |s| ==> '0' <= s[i] <= '9'
    requires s[0] == '0' ==> |s| == 1
    ensures forall i :: 0 <= i < |s| ==> IsDigit(s[i], 10)
    ensures ParseInt(s) == Num(DigitsValue(s, 10))
  {
    assert forall i :: 0 <= i < |s| ==> IsDigit(s[i], 10);
    assert !IsJsSpace(s[0]);
    assert SkipSpaces(s) == s;
    DigitPrefixAll(s, 10);
    assert s[..|s|] == s;
    assert ParseMagnitude(s) == ParseDigits(s, 10);
  }

  /** `parseInt` reads back a rendered natural number. */
  lemma ParseIntOfNatToString(n: nat)
    ensures ParseInt(NatToString(n)) == Num(n)
  {
    ParseIntOfDecimal(NatToString(n));
    DigitsValueOfNatToString(n);
  }

  lemma {:induction false} DigitPrefixAll(s: string, base: nat)
    requires forall i :: 0 <= i < |s| ==> IsDigit(s[i], base)
    ensures DigitPrefix(s, base) == |s|
  {
    if |s| > 0 {
      DigitPrefixAll(s[1..], base);
    }
  }

  lemma RenderSpecNoComma(spec: RankSpec)
    ensures ',' !in RenderSpec(spec)
    ensures ('-' in RenderSpec(spec)) <==> spec.Span?
  {
    match spec
    case Single(n) =>
    case Span(lo, hi) =>
      var s := NatToString(lo) + "-" + NatToString(hi);
      assert s[|NatToString(lo)|] == '-';
  }

  lemma ExpandSpan(lo: nat, hi: nat)
    ensures ExpandPart(RenderSpec(Span(lo, hi))) == Range(lo, hi)
  {
    var a := NatToString(lo);
    var b := NatToString(hi);
    var part := a + "-" + b;
    assert part == a + ['-'] + b;
    assert part[|a|] == '-';
    RenderSpecNoComma(Single(lo));
    RenderSpecNoComma(Single(hi));
    assert '-' !in a && '-' !in b;
    Seqs.SplitCons(a, '-', b);
    Seqs.SplitNoSeparator(b, '-');
    assert Seqs.Split(part, '-') == [a, b];
    ParseIntOfNatToString(lo);
    ParseIntOfNatToString(hi);
  }

  lemma ExpandPartOfSpec(spec: RankSpec)
    ensures ExpandPart(RenderSpec(spec)) == Denote([spec])
  {
    assert [spec][1..] == [];
    assert Denote([spec][1..]) == [];
    match spec
    case Single(n) =>
      RenderSpecNoComma(spec);
      ParseIntOfNatToString(n);
    case Span(lo, hi) =>
      ExpandSpan(lo, hi);
  }

  lemma {:induction false} ExpandPartsOfSpecs(specs: seq<RankSpec>)
    ensures ExpandParts(RenderSpecs(specs)) == Denote(specs)
  {
    if |specs| > 0 {
      RenderSpecsCons(specs);
      DenoteCons(specs);
      ExpandPartOfSpec(specs[0]);
      ExpandPartsOfSpecs(specs[1..]);
    }
  }

  lemma RenderSpecsCons(specs: seq<RankSpec>)
    requires |specs| > 0
    ensures var parts := RenderSpecs(specs);
            parts[0] == RenderSpec(specs[0]) && parts[1..] == RenderSpecs(specs[1..])
  {
    assert RenderSpecs(specs) == [RenderSpec(specs[0])] + RenderSpecs(specs[1..]);
  }

  lemma DenoteCons(specs: seq<RankSpec>)
    requires |specs| > 0
    ensures Denote(specs) == Denote([specs[0]]) + Denote(specs[1..])
  {
    assert [specs[0]][1..] == [];
  }

  /**
   * Round trip: the expansion of a well-formed rank text is exactly the
   * concatenation, part by part, of the ranges and single ranks it denotes.
   */
  lemma ExpandRenderedRankText(specs: seq<RankSpec>)
    requires |specs| >= 1
    ensures ExpandRankText(RenderRankText(specs)) == Denote(specs)
  {
    var parts := RenderSpecs(specs);
    forall i | 0 <= i < |parts|
      ensures ',' !in parts[i]
    {
      RenderSpecAt(specs, i);
      RenderSpecNoComma(specs[i]);
    }
    Seqs.SplitJoin(parts, ',');
    ExpandPartsOfSpecs(specs);
  }

  lemma {:induction false} RenderSpecAt(specs: seq<RankSpec>, i: nat)
    requires i < |specs|
    ensures RenderSpecs(specs)[i] == RenderSpec(specs[i])
  {
    if i > 0 {
      RenderSpecAt(specs[1..], i - 1);
    }
  }

  /** A well-formed expansion never contains NaN and only ranks the text names. */
  lemma {:induction false} DenoteIsNumeric(specs: seq<RankSpec>)
    ensures forall i :: 0 <= i < |Denote(specs)| ==> Denote(specs)[i].Num? && Denote(specs)[i].n >= 0
  {
    if |specs| > 0 {
      DenoteIsNumeric(specs[1..]);
    }
  }

  lemma RenderExample()
    ensures RenderRankText([Span(1, 3), Single(5)]) == "1-3,5"
  {
    var specs := [Span(1, 3), Single(5)];
    assert NatToString(1) == "1" && NatToString(3) == "3" && NatToString(5) == "5";
    assert RenderSpecs(specs[1..]) == ["5"] by {
      assert specs[1..][1..] == [];
    }
    assert RenderSpec(specs[0]) == "1-3";
    assert RenderSpecs(specs) == [RenderSpec(specs[0])] + RenderSpecs(specs[1..]);
  }

  lemma DenoteExample()
    ensures Denote([Span(1, 3), Single(5)]) == [Num(1), Num(2), Num(3), Num(5)]
  {
    var specs := [Span(1, 3), Single(5)];
    assert Denote(specs[1..]) == [Num(5)] by {
      assert specs[1..][1..] == [];
    }
    assert Range(1, 3) == [Num(1), Num(2), Num(3)];
  }

  /** The documented example: "1-3,5" stands for ranks 1, 2, 3 and 5. */
  lemma ExpandExample()
    ensures ExpandRankText("1-3,5") == [Num(1), Num(2), Num(3), Num(5)]
  {
    RenderExample();
    DenoteExample();
    ExpandRenderedRankText([Span(1, 3), Single(5)]);
  }
}
