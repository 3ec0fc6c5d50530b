/** The token counter `Usage` of lcmeval/utils/llm.py: three counters that
    `+=` adds field by field in place. The client that produces the counts
    is not modelled. */
module Llm {

  /** `openai.types.CompletionUsage`, as far as `Usage.of` reads it. */
  datatype CompletionUsage = CompletionUsage(promptTokens: int, completionTokens: int, totalTokens: int)

  /** The three counters of a `Usage`, as a value. */
  datatype Counts = Counts(prompt: int, completion: int, total: int)

  /** `+=` on the three counters; the default counts change nothing. */
  function Add(a: Counts, b: Counts): (r: Counts)
    ensures a == Zero ==> r == b
    ensures b == Zero ==> r == a
  {
    Counts(a.prompt + b.prompt, a.completion + b.completion, a.total + b.total)
  }

  const Zero := Counts(0, 0, 0)

  /** Adding counts is a commutative monoid with the default counts as unit,
      so the order in which usages are added up does not matter. */
  lemma AddMonoid(a: Counts, b: Counts, c: Counts)
    ensures Add(a, Zero) == a && Add(Zero, a) == a
    ensures Add(a, b) == Add(b, a)
    ensures Add(Add(a, b), c) == Add(a, Add(b, c))
  {
  }

  class Usage {
    var promptTokens: int
    var completionTokens: int
    var totalTokens: int

    function CountsOf(): Counts
      reads this
    {
      Counts(promptTokens, completionTokens, totalTokens)
    }

    /** `Usage(prompt_tokens=0, completion_tokens=0, total_tokens=0)`. */
    constructor (promptTokens: int := 0, completionTokens: int := 0, totalTokens: int := 0)
      ensures CountsOf() == Counts(promptTokens, completionTokens, totalTokens)
    {
      this.promptTokens := promptTokens;
      this.completionTokens := completionTokens;
      this.totalTokens := totalTokens;
    }

    /** `Usage.of(usage)`: the three counts copied unchanged. */
    static method Of(usage: CompletionUsage) returns (u: Usage)
      ensures fresh(u)
      ensures u.CountsOf() == Counts(usage.promptTokens, usage.completionTokens, usage.totalTokens)
    {
      u := new Usage(usage.promptTokens, usage.completionTokens, usage.totalTokens);
    }

    /** `self += other`: each counter of self grows by the matching counter
        of other (as it was before the call, which matters for `u += u`);
        self is returned and other is otherwise left alone. */
    method AddAssign(other: Usage) returns (r: Usage)
      modifies this
      ensures r == this
      ensures CountsOf() == Add(old(CountsOf()), old(other.CountsOf()))
      ensures other != this ==> other.CountsOf() == old(other.CountsOf())
    {
      promptTokens := promptTokens + other.promptTokens;
      completionTokens := completionTokens + other.completionTokens;
      totalTokens := totalTokens + other.totalTokens;
      return this;
    }

    /** `str(usage)`. */
    function ToString(): string
      reads this
    {
      "input_toks: " + IntToString(promptTokens) + ", output_toks: "
        + IntToString(completionTokens) + ", total_toks: " + IntToString(totalTokens)
    }
  }

  // ---------------------------------------------------------------------
  // Decimal text of the counters

  predicate IsDigit(c: char) {
    '0' <= c <= '9'
  }

  function DigitChar(d: nat): (c: char)
    requires d < 10
    ensures IsDigit(c) && c as int - '0' as int == d
  {
    ['0', '1', '2', '3', '4', '5', '6', '7', '8', '9'][d]
  }

  /** The decimal digits of n, most significant first, without leading zeros. */
  function NatToString(n: nat): (s: string)
    ensures |s| >= 1 && forall i :: 0 <= i < |s| ==> IsDigit(s[i])
    ensures s[0] == '0' ==> n == 0
    decreases n
  {
    if n < 10 then [DigitChar(n)] else NatToString(n / 10) + [DigitChar(n % 10)]
  }

  /** Python's `str(i)` for an int. */
  function IntToString(i: int): (s: string)
    ensures i < 0 <==> (|s| > 0 && s[0] == '-')
  {
    if i < 0 then "-" + NatToString(-i) else NatToString(i)
  }

  /** The value of a string of decimal digits. */
  function ParseDigits(s: string): (n: int)
    requires forall i :: 0 <= i < |s| ==> IsDigit(s[i])
    ensures n >= 0
  {
    if |s| == 0 then 0
    else
      assert IsDigit(s[|s| - 1]);
      10 * ParseDigits(s[..|s| - 1]) + (s[|s| - 1] as int - '0' as int)
  }

  function ParseInt(s: string): int
    requires |s| > 0
    requires s[0] == '-' ==> forall i :: 1 <= i < |s| ==> IsDigit(s[i])
    requires s[0] != '-' ==> forall i :: 0 <= i < |s| ==> IsDigit(s[i])
  {
    if s[0] == '-' then -ParseDigits(s[1..]) else ParseDigits(s)
  }

  lemma {:induction false} ParseNatToString(n: nat)
    ensures ParseDigits(NatToString(n)) == n
    decreases n
  {
    if n >= 10 {
      var s := NatToString(n);
      ParseNatToString(n / 10);
      assert s[..|s| - 1] == NatToString(n / 10);
    }
  }

  /** The printed counters read back as the counters. */
  lemma IntToStringRoundTrip(i: int)
    ensures |IntToString(i)| > 0
    ensures ParseInt(IntToString(i)) == i
  {
    if i < 0 {
      NegativeRoundTrip(-i);
    } else {
      ParseNatToString(i);
    }
  }

  lemma NegativeRoundTrip(n: nat)
    requires n > 0
    ensures var s := "-" + NatToString(n);
      && (forall k :: 1 <= k < |s| ==> IsDigit(s[k]))
      && ParseInt(s) == -(n as int)
  {
    var s := "-" + NatToString(n);
    assert s[1..] == NatToString(n);
    forall k | 1 <= k < |s| ensures IsDigit(s[k]) {
      assert s[k] == NatToString(n)[k - 1];
    }
    ParseNatToString(n);
  }
}
