/** The Python `str` operations the agents and the crawler rely on:
    `isspace`, `strip`, `in`, `find`, `partition`, `split`, `join`, slicing
    and `format` with one keyword argument. Strings are sequences of code
    points, as in Python. */
module Strings {
  import opened Wrappers

  /** Python's `str.isspace` for one character. */
  predicate IsSpace(c: char) {
    var n := c as int;
    (9 <= n <= 13) || (28 <= n <= 32) || n == 0x85 || n == 0xA0 || n == 0x1680 ||
    (0x2000 <= n <= 0x200A) || n == 0x2028 || n == 0x2029 || n == 0x202F ||
    n == 0x205F || n == 0x3000
  }

  predicate AllSpace(s: string) {
    forall i :: 0 <= i < |s| ==> IsSpace(s[i])
  }

  /** True when `s` has no whitespace at either end. */
  predicate Trimmed(s: string) {
    s == [] || (!IsSpace(s[0]) && !IsSpace(s[|s| - 1]))
  }

  /** Index of the first non-whitespace character, or |s|. */
  function Lo(s: string): (i: nat)
    ensures i <= |s|
    ensures forall j :: 0 <= j < i ==> IsSpace(s[j])
    ensures i < |s| ==> !IsSpace(s[i])
  {
    if |s| == 0 || !IsSpace(s[0]) then 0 else 1 + Lo(s[1..])
  }

  /** One past the index of the last non-whitespace character, or 0. */
  function Hi(s: string): (j: nat)
    ensures j <= |s|
    ensures forall t :: j <= t < |s| ==> IsSpace(s[t])
    ensures 0 < j ==> !IsSpace(s[j - 1])
  {
    if |s| == 0 || !IsSpace(s[|s| - 1]) then |s| else Hi(s[..|s| - 1])
  }

  /** Python's `s.strip()`: drop leading and trailing whitespace. */
  function Strip(s: string): (r: string)
    ensures Trimmed(r)
    ensures |r| <= |s|
  {
    if Lo(s) == |s| then "" else s[Lo(s)..Hi(s)]
  }

  /** Strip is pinned down by its meaning: whatever whitespace frame is
      removed, the trimmed middle is the result. */
  lemma StripUnique(s: string, lead: string, mid: string, trail: string)
    requires s == lead + mid + trail
    requires AllSpace(lead) && AllSpace(trail) && Trimmed(mid)
    ensures Strip(s) == mid
  {
    if mid == [] {
      assert AllSpace(s) by {
        forall i | 0 <= i < |s| ensures IsSpace(s[i]) {
          if i < |lead| { assert s[i] == lead[i]; } else { assert s[i] == trail[i - |lead|]; }
        }
      }
      assert Lo(s) == |s|;
    } else {
      assert s[|lead|] == mid[0];
      assert s[|lead| + |mid| - 1] == mid[|mid| - 1];
      assert Lo(s) == |lead|;
      assert Hi(s) == |lead| + |mid| by {
        forall t | |lead| + |mid| <= t < |s| ensures IsSpace(s[t]) {
          assert s[t] == trail[t - |lead| - |mid|];
        }
      }
      assert s[|lead|..|lead| + |mid|] == mid;
    }
  }

  /** Stripping a stripped string changes nothing. */
  lemma StripIdempotent(s: string)
    ensures Strip(Strip(s)) == Strip(s)
  {
    var r := Strip(s);
    assert r == [] + r + [];
    StripUnique(r, [], r, []);
  }

  /** When `s` starts with a non-space, strip only removes a whitespace tail. */
  lemma StripTail(s: string)
    requires |s| > 0 && !IsSpace(s[0])
    ensures Strip(s) == s[..Hi(s)] && AllSpace(s[Hi(s)..])
  {
  }

  /** Python's `s.endswith(suffix)`. */
  predicate EndsWith(s: string, suffix: string)
    ensures EndsWith(s, suffix) <==> exists t :: s == t + suffix
  {
    assert forall t :: s == t + suffix ==> |suffix| <= |s| && s[|s| - |suffix|..] == suffix by {
      forall t | s == t + suffix ensures |suffix| <= |s| && s[|s| - |suffix|..] == suffix {
        assert s[|s| - |suffix|..] == s[|t|..];
      }
    }
    if |suffix| <= |s| && s[|s| - |suffix|..] == suffix then
      assert s == s[..|s| - |suffix|] + suffix;
      true
    else false
  }

  /** `p` occurs in `s` starting at index `i`. */
  predicate OccursAt(s: string, p: string, i: int) {
    0 <= i && i + |p| <= |s| && s[i..i + |p|] == p
  }

  /** Python's `s.find(p, i)` as an Option: the first occurrence at or after `i`. */
  function FindFrom(s: string, p: string, i: nat): (r: Option<nat>)
    decreases |s| - i
    ensures r.Some? ==> i <= r.value && OccursAt(s, p, r.value)
    ensures r.Some? ==> forall j :: i <= j < r.value ==> !OccursAt(s, p, j)
    ensures r.None? ==> forall j :: i <= j ==> !OccursAt(s, p, j)
  {
    if i + |p| > |s| then None
    else if s[i..i + |p|] == p then Some(i)
    else FindFrom(s, p, i + 1)
  }

  function Find(s: string, p: string): Option<nat> {
    FindFrom(s, p, 0)
  }

  /** Python's `p in s`. */
  predicate Contains(s: string, p: string)
    ensures Contains(s, p) <==> exists i :: OccursAt(s, p, i)
  {
    Find(s, p).Some?
  }

  /** `in` holds exactly when there is an occurrence somewhere. */
  lemma ContainsIff(s: string, p: string, i: int)
    ensures OccursAt(s, p, i) ==> Contains(s, p)
    ensures Contains(s, p) ==> OccursAt(s, p, Find(s, p).value)
  {
  }

  /** Unless `s` is all whitespace, strip keeps exactly the slice between
      Lo and Hi. */
  lemma StripFrame(s: string)
    requires Lo(s) < |s|
    ensures Lo(s) < Hi(s) && Strip(s) == s[Lo(s)..Hi(s)]
  {
    assert !IsSpace(s[Lo(s)]);
  }

  /** An occurrence inside a slice is an occurrence in the whole, and back. */
  lemma OccursInSlice(s: string, p: string, lo: nat, hi: nat, j: int)
    requires lo <= hi <= |s|
    ensures OccursAt(s[lo..hi], p, j) ==> OccursAt(s, p, lo + j)
    ensures 0 <= j && lo + j + |p| <= hi && OccursAt(s, p, lo + j) ==> OccursAt(s[lo..hi], p, j)
  {
    if 0 <= j && j + |p| <= hi - lo {
      var t := s[lo..hi][j..j + |p|];
      var u := s[lo + j..lo + j + |p|];
      forall k | 0 <= k < |p| ensures t[k] == u[k] {
        assert t[k] == s[lo + j + k];
      }
      assert t == u;
    }
  }

  /** A pattern with no whitespace at either end occurs in `s` exactly when
      it occurs in `s.strip()`. */
  lemma StripKeepsPattern(s: string, p: string)
    requires |p| > 0 && Trimmed(p)
    ensures Contains(s, p) <==> Contains(Strip(s), p)
  {
    if Contains(s, p) {
      PatternInsideFrame(s, p);
    }
    if Contains(Strip(s), p) {
      var j := Find(Strip(s), p).value;
      ContainsIff(Strip(s), p, j);
      StripFrame(s);
      OccursInSlice(s, p, Lo(s), Hi(s), j);
      ContainsIff(s, p, Lo(s) + j);
    }
  }

  lemma PatternInsideFrame(s: string, p: string)
    requires |p| > 0 && Trimmed(p) && Contains(s, p)
    ensures Contains(Strip(s), p)
  {
    var i := Find(s, p).value;
    ContainsIff(s, p, i);
    assert s[i] == p[0] && s[i + |p| - 1] == p[|p| - 1] by {
      assert s[i..i + |p|] == p;
    }
    StripFrame(s);
    assert i + |p| <= Hi(s);
    OccursInSlice(s, p, Lo(s), Hi(s), i - Lo(s));
    ContainsIff(Strip(s), p, i - Lo(s));
  }

  /** Python's `s.partition(sep)` (which rejects an empty separator). */
  function Partition(s: string, sep: string): (r: (string, string, string))
    requires |sep| > 0
    ensures r.0 + r.1 + r.2 == s
    ensures Contains(s, sep) ==> r.1 == sep && !Contains(r.0, sep)
    ensures !Contains(s, sep) ==> r == (s, "", "")
  {
    match Find(s, sep)
    case None => (s, "", "")
    case Some(i) =>
      assert !Contains(s[..i], sep) by {
        if Contains(s[..i], sep) {
          var j := Find(s[..i], sep).value;
          assert s[..i][j..j + |sep|] == s[j..j + |sep|];
          assert OccursAt(s, sep, j);
        }
      }
      (s[..i], sep, s[i + |sep|..])
  }

  /** No proper suffix of `sep` is also a prefix of it, so two occurrences
      can never overlap. Every marker the agents look for has this shape. */
  predicate Unbordered(sep: string) {
    forall d :: 0 < d < |sep| ==> sep[d..] != sep[..|sep| - d]
  }

  /** A marker whose only `<` is its first character is unbordered. */
  lemma TagUnbordered(sep: string)
    requires |sep| > 0 && sep[0] == '<'
    requires forall i :: 0 < i < |sep| ==> sep[i] != '<'
    ensures Unbordered(sep)
  {
    forall d | 0 < d < |sep| ensures sep[d..] != sep[..|sep| - d] {
      assert sep[d..][0] == sep[d];
    }
  }

  /** For an unbordered separator, the part after it starts right after its
      first occurrence, whatever follows. */
  lemma PartitionAfter(t: string, sep: string, rest: string)
    requires |sep| > 0 && Unbordered(sep) && !Contains(t, sep)
    ensures Partition(t + sep + rest, sep) == (t, sep, rest)
  {
    var s := t + sep + rest;
    assert OccursAt(s, sep, |t|) by { assert s[|t|..|t| + |sep|] == sep; }
    var i := Find(s, sep).value;
    if i < |t| {
      if i + |sep| <= |t| {
        assert t[i..i + |sep|] == s[i..i + |sep|];
        ContainsIff(t, sep, i);
      } else {
        // an occurrence straddling the end of t overlaps the one at |t|
        StraddleOverlap(t, sep, rest, i);
      }
    }
    assert i == |t|;
    assert s[..i] == t;
    assert s[i + |sep|..] == rest;
  }

  lemma StraddleOverlap(t: string, sep: string, rest: string, i: nat)
    requires OccursAt(t + sep + rest, sep, i) && i < |t| < i + |sep|
    ensures sep[|t| - i..] == sep[..|sep| - (|t| - i)]
  {
    var s := t + sep + rest;
    var d := |t| - i;
    assert sep[d..] == s[|t|..i + |sep|];
    assert sep[..|sep| - d] == s[|t|..i + |sep|];
  }

  /** Python's `s.split(sep)`: the pieces between successive occurrences. */
  function Split(s: string, sep: string): (r: seq<string>)
    requires |sep| > 0
    ensures |r| >= 1
    ensures |r| == 1 <==> !Contains(s, sep)
    decreases |s|
  {
    match Find(s, sep)
    case None => [s]
    case Some(i) => [s[..i]] + Split(s[i + |sep|..], sep)
  }

  /** Python's `sep.join(xs)`. */
  function Join(xs: seq<string>, sep: string): (r: string)
    ensures |xs| > 0 ==> xs[0] <= r
  {
    if |xs| == 0 then ""
    else if |xs| == 1 then xs[0]
    else xs[0] + sep + Join(xs[1..], sep)
  }

  lemma JoinCons(x: string, xs: seq<string>, sep: string)
    requires |xs| >= 1
    ensures Join([x] + xs, sep) == x + sep + Join(xs, sep)
  {
    assert ([x] + xs)[1..] == xs;
  }

  /** When the separator occurs, the split is the part before it followed by
      the split of the rest. */
  lemma SplitCons(s: string, sep: string)
    requires |sep| > 0 && Contains(s, sep)
    ensures var i := Find(s, sep).value;
      Split(s, sep) == [s[..i]] + Split(s[i + |sep|..], sep) &&
      s == s[..i] + sep + s[i + |sep|..]
  {
    var i := Find(s, sep).value;
    assert s[i..i + |sep|] == sep;
    assert s == s[..i] + s[i..i + |sep|] + s[i + |sep|..];
  }

  /** Joining the pieces of a split with the same separator gives the string back. */
  lemma {:induction false} JoinSplit(s: string, sep: string)
    requires |sep| > 0
    ensures Join(Split(s, sep), sep) == s
    decreases |s|
  {
    if Contains(s, sep) {
      var i := Find(s, sep).value;
      var rest := s[i + |sep|..];
      SplitCons(s, sep);
      JoinSplit(rest, sep);
      JoinCons(s[..i], Split(rest, sep), sep);
    }
  }

  /** Splitting a join of pieces that hold no separator gives the pieces
      back (for at least one piece: `"".split(sep)` is `[""]`). */
  lemma {:induction false} SplitJoin(xs: seq<string>, sep: string)
    requires |sep| > 0 && Unbordered(sep) && |xs| >= 1
    requires forall i :: 0 <= i < |xs| ==> !Contains(xs[i], sep)
    ensures Split(Join(xs, sep), sep) == xs
    decreases |xs|
  {
    if |xs| > 1 {
      var rest := Join(xs[1..], sep);
      assert [xs[0]] + xs[1..] == xs;
      JoinCons(xs[0], xs[1..], sep);
      PartitionAfter(xs[0], sep, rest);
      var s := xs[0] + sep + rest;
      assert Find(s, sep) == Some(|xs[0]|);
      assert s[..|xs[0]|] == xs[0] && s[|xs[0]| + |sep|..] == rest;
      SplitJoin(xs[1..], sep);
    } else {
      assert Join(xs, sep) == xs[0];
    }
  }

  /** A single character is never bordered. */
  lemma OneCharUnbordered(c: char)
    ensures Unbordered([c])
  {
  }

  /** No piece of a split contains the separator. */
  lemma {:induction false} SplitPiecesFree(s: string, sep: string, k: nat)
    requires |sep| > 0 && k < |Split(s, sep)|
    ensures !Contains(Split(s, sep)[k], sep)
    decreases |s|
  {
    SplitHead(s, sep);
    if Contains(s, sep) && k > 0 {
      var rest := Partition(s, sep).2;
      assert Split(s, sep)[k] == Split(rest, sep)[k - 1];
      SplitPiecesFree(rest, sep, k - 1);
    }
  }

  /** The first piece is what precedes the first separator; the others are
      the pieces of what follows it. */
  lemma SplitHead(s: string, sep: string)
    requires |sep| > 0
    ensures Split(s, sep)[0] == Partition(s, sep).0
    ensures Contains(s, sep) ==>
      |Partition(s, sep).2| < |s| && Split(s, sep)[1..] == Split(Partition(s, sep).2, sep)
  {
    if Contains(s, sep) {
      var i := Find(s, sep).value;
      var rest := s[i + |sep|..];
      assert Partition(s, sep) == (s[..i], sep, rest);
      var tail := Split(rest, sep);
      assert Split(s, sep) == [s[..i]] + tail;
      assert Split(s, sep)[1..] == tail;
    } else {
      assert Split(s, sep) == [s];
    }
  }

  /** The second piece of a split is what lies between the first and the
      second occurrence: the part before the separator in what follows the
      first one. */
  lemma SplitSecond(s: string, sep: string)
    requires |sep| > 0 && Contains(s, sep)
    ensures |Split(s, sep)| >= 2
    ensures Split(s, sep)[1] == Partition(Partition(s, sep).2, sep).0
  {
    var i := Find(s, sep).value;
    var rest := s[i + |sep|..];
    assert Partition(s, sep).2 == rest;
    assert Split(s, sep)[1] == Split(rest, sep)[0];
  }

  /** Python's `s[:n]` for n >= 0. */
  function Take(s: string, n: nat): (r: string)
    ensures |r| == if |s| <= n then |s| else n
    ensures r <= s
  {
    if |s| <= n then s else s[..n]
  }

  /** A piece of a `str.format` template: literal text or a `{name}` field. */
  datatype Piece = Text(text: string) | Field(name: string)

  type Template = seq<Piece>

  predicate OnlyField(t: Template, key: string) {
    forall i :: 0 <= i < |t| && t[i].Field? ==> t[i].name == key
  }

  /** The text with every field replaced by `value`. */
  function Fill(t: Template, value: string): string {
    if |t| == 0 then ""
    else (match t[0] case Text(x) => x case Field(_) => value) + Fill(t[1..], value)
  }

  /** Python's `t.format(key=value)`: every field is looked up among the
      keyword arguments; a field under any other name raises KeyError. */
  function Format(t: Template, key: string, value: string): (r: Result<string, Error>)
    ensures r.Success? <==> OnlyField(t, key)
    ensures r.Failure? ==> r.error == KeyError
  {
    if |t| == 0 then Success("")
    else if t[0].Field? && t[0].name != key then Failure(KeyError)
    else match Format(t[1..], key, value)
      case Failure(e) => Failure(e)
      case Success(rest) =>
        Success((match t[0] case Text(x) => x case Field(_) => value) + rest)
  }

  /** A successful format inserts `value` verbatim at every field. */
  lemma {:induction false} FormatFills(t: Template, key: string, value: string)
    requires OnlyField(t, key)
    ensures Format(t, key, value) == Success(Fill(t, value))
  {
    if |t| > 0 {
      FormatFills(t[1..], key, value);
    }
  }

  /** The shape of every template in the agents: text, one field, text. */
  lemma OneFieldTemplate(before: string, key: string, after: string, value: string)
    ensures Format([Text(before), Field(key), Text(after)], key, value)
         == Success(before + value + after)
  {
    var t := [Text(before), Field(key), Text(after)];
    assert OnlyField(t, key);
    FormatFills(t, key, value);
    assert t[1..][1..][1..] == [];
    assert Fill(t[1..][1..][1..], value) == "";
    assert Fill(t[1..][1..], value) == after;
    assert Fill(t[1..], value) == value + after;
    assert Fill(t, value) == before + value + after;
  }
}
