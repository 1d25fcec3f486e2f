/**
  The PHP string built-ins the client relies on: `explode` on a one-character
  separator, its inverse `implode`, the position of the last separator, and the
  decimal integer strings that PHP arrays treat as integer keys.
 */
module PhpStrings {

  import opened Wrappers

  // ---------------------------------------------------------------------------
  // explode / implode
  // ---------------------------------------------------------------------------

  /** `explode(sep, s)`: the pieces of `s` between occurrences of `sep`, in order.
      There is always at least one piece; an empty string gives `[""]`. */
  function Explode(sep: char, s: string): (parts: seq<string>)
    ensures |parts| >= 1
    ensures forall i :: 0 <= i < |parts| ==> sep !in parts[i]
    decreases |s|
  {
    if |s| == 0 then [""]
    else
      var rest := Explode(sep, s[1..]);
      if s[0] == sep then [""] + rest
      else [[s[0]] + rest[0]] + rest[1..]
  }

  /** `implode(sep, parts)`: the pieces joined with `sep` between neighbours. */
  function Implode(sep: char, parts: seq<string>): string
  {
    if |parts| == 0 then ""
    else if |parts| == 1 then parts[0]
    else parts[0] + [sep] + Implode(sep, parts[1..])
  }

  /** The last piece of `explode(sep, s)`, which is what PHP's `end()` returns:
      the text after the last separator, the whole string when there is none. */
  function LastPiece(sep: char, s: string): (r: string)
    ensures sep !in r
    ensures r == s[LastIndexOf(sep, s) + 1..]
  {
    var parts := Explode(sep, s);
    ExplodeLastAfterLastSep(sep, s);
    parts[|parts| - 1]
  }

  /** The index of the last `sep` in `s`, or -1 when there is none. */
  function LastIndexOf(sep: char, s: string): (r: int)
    ensures -1 <= r < |s|
    ensures r >= 0 ==> s[r] == sep
    ensures forall j :: r < j < |s| ==> s[j] != sep
  {
    if |s| == 0 then -1
    else if s[|s| - 1] == sep then |s| - 1
    else LastIndexOf(sep, s[..|s| - 1])
  }

  /** The last separator is unique: any index with its two properties is `LastIndexOf`. */
  lemma LastIndexOfUnique(sep: char, s: string, r: int)
    requires -1 <= r < |s|
    requires r >= 0 ==> s[r] == sep
    requires forall j :: r < j < |s| ==> s[j] != sep
    ensures r == LastIndexOf(sep, s)
  {
  }

  /** A string without the separator explodes into itself alone. */
  lemma {:induction false} ExplodeWithoutSep(sep: char, s: string)
    requires sep !in s
    ensures Explode(sep, s) == [s]
    decreases |s|
  {
    if |s| > 0 {
      ExplodeWithoutSep(sep, s[1..]);
      assert [s[0]] + s[1..] == s;
    }
  }

  /** Exploding `s + sep + t` is exploding `s` and `t` separately. */
  lemma {:induction false} ExplodeAppend(sep: char, s: string, t: string)
    ensures Explode(sep, s + [sep] + t) == Explode(sep, s) + Explode(sep, t)
    decreases |s|
  {
    var u := s + [sep] + t;
    if |s| == 0 {
      assert u[1..] == t;
    } else {
      assert u[0] == s[0];
      assert u[1..] == s[1..] + [sep] + t;
      ExplodeAppend(sep, s[1..], t);
    }
  }

  /** Appending separator-free text to a string that ends in the separator
      fills in its empty last piece. */
  lemma ExplodeAfterSep(sep: char, base: string, t: string)
    requires |base| > 0 && base[|base| - 1] == sep && sep !in t
    ensures var b := Explode(sep, base);
      Explode(sep, base + t) == b[..|b| - 1] + [t]
  {
    var root := base[..|base| - 1];
    assert base == root + [sep] + "";
    assert base + t == root + [sep] + t;
    ExplodeAppend(sep, root, "");
    ExplodeAppend(sep, root, t);
    ExplodeWithoutSep(sep, t);
    assert (Explode(sep, root) + [""])[..|Explode(sep, root)|] == Explode(sep, root);
  }

  /** Round trip: joining the pieces of `s` gives back `s`. */
  lemma {:induction false} ImplodeExplode(sep: char, s: string)
    ensures Implode(sep, Explode(sep, s)) == s
    decreases |s|
  {
    if |s| > 0 {
      var rest := Explode(sep, s[1..]);
      ImplodeExplode(sep, s[1..]);
      if s[0] == sep {
        assert ([""] + rest)[1..] == rest;
      } else {
        var parts := [[s[0]] + rest[0]] + rest[1..];
        if |rest| > 1 {
          assert parts[1..] == rest[1..];
          assert Implode(sep, rest) == rest[0] + [sep] + Implode(sep, rest[1..]);
        }
        assert [s[0]] + s[1..] == s;
      }
    }
  }

  /** Round trip: separator-free pieces survive a join followed by a split. */
  lemma {:induction false} ExplodeImplode(sep: char, parts: seq<string>)
    requires |parts| >= 1
    requires forall i :: 0 <= i < |parts| ==> sep !in parts[i]
    ensures Explode(sep, Implode(sep, parts)) == parts
    decreases |parts|
  {
    if |parts| == 1 {
      ExplodeWithoutSep(sep, parts[0]);
    } else {
      ExplodeWithoutSep(sep, parts[0]);
      ExplodeImplode(sep, parts[1..]);
      ExplodeAppend(sep, parts[0], Implode(sep, parts[1..]));
      assert [parts[0]] + parts[1..] == parts;
    }
  }

  /** Joining peels off the last piece: `implode` of n >= 2 pieces is the join of
      the first n-1, the separator, and the last one. */
  lemma {:induction false} ImplodeSnoc(sep: char, parts: seq<string>)
    requires |parts| >= 2
    ensures Implode(sep, parts) == Implode(sep, parts[..|parts| - 1]) + [sep] + parts[|parts| - 1]
    decreases |parts|
  {
    var n := |parts|;
    if n > 2 {
      ImplodeSnoc(sep, parts[1..]);
      assert parts[1..][..n - 2] == parts[..n - 1][1..];
    }
  }

  /** In `a + sep + p` with no separator in `p`, the last separator is the one
      after `a`, and `p` follows it. */
  lemma LastSepBefore(sep: char, a: string, p: string)
    requires sep !in p
    ensures LastIndexOf(sep, a + [sep] + p) == |a|
    ensures (a + [sep] + p)[|a| + 1..] == p
  {
    var s := a + [sep] + p;
    assert s[|a| + 1..] == p;
    forall j | |a| < j < |s|
      ensures s[j] != sep
    {
      assert s[j] == p[j - |a| - 1];
    }
    LastIndexOfUnique(sep, s, |a|);
  }

  /** The last piece of `explode` is exactly the text after the last separator. */
  lemma ExplodeLastAfterLastSep(sep: char, s: string)
    ensures var parts := Explode(sep, s); parts[|parts| - 1] == s[LastIndexOf(sep, s) + 1..]
  {
    var parts := Explode(sep, s);
    var n := |parts|;
    var p := parts[n - 1];
    if n == 1 {
      assert LastIndexOf(sep, s) == -1 && s[0..] == p by {
        assert s == p by { ImplodeExplode(sep, s); }
        LastIndexOfUnique(sep, s, -1);
      }
    } else {
      var a := Implode(sep, parts[..n - 1]);
      assert LastIndexOf(sep, s) == |a| && s[|a| + 1..] == p by {
        assert s == a + [sep] + p by {
          ImplodeExplode(sep, s);
          ImplodeSnoc(sep, parts);
        }
        LastSepBefore(sep, a, p);
      }
    }
  }

  // ---------------------------------------------------------------------------
  // Decimal integer strings (PHP's integer-like array keys)
  // ---------------------------------------------------------------------------

  /** The range of PHP's 64-bit integer keys. */
  const MinInt: int := -0x8000_0000_0000_0000
  const MaxInt: int := 0x7FFF_FFFF_FFFF_FFFF

  predicate IsDigit(c: char) { '0' <= c <= '9' }

  /** A non-empty run of digits without a leading zero (so `"0"` itself is allowed). */
  predicate CanonicalDigits(s: string)
  {
    && |s| > 0
    && (forall i :: 0 <= i < |s| ==> IsDigit(s[i]))
    && (s[0] == '0' ==> |s| == 1)
  }

  function DigitChar(d: nat): (c: char)
    requires d < 10
    ensures IsDigit(c) && c as int - '0' as int == d
  {
    ('0' as int + d) as char
  }

  function DigitOf(c: char): (d: nat)
    requires IsDigit(c)
    ensures d < 10
  {
    c as int - '0' as int
  }

  /** The number a run of digits denotes. */
  function DigitsValue(s: string): nat
    requires forall i :: 0 <= i < |s| ==> IsDigit(s[i])
  {
    if |s| == 0 then 0
    else 10 * DigitsValue(s[..|s| - 1]) + DigitOf(s[|s| - 1])
  }

  /** The decimal representation of `n`, in canonical form. */
  function NatToString(n: nat): (s: string)
    ensures CanonicalDigits(s) && DigitsValue(s) == n
  {
    if n < 10 then [DigitChar(n)]
    else
      var p := NatToString(n / 10);
      var s := p + [DigitChar(n % 10)];
      assert s[..|s| - 1] == p;
      s
  }

  /** A canonical run of digits other than `"0"` denotes a positive number. */
  lemma {:induction false} CanonicalPositive(s: string)
    requires CanonicalDigits(s) && s != "0"
    ensures DigitsValue(s) >= 1
    decreases |s|
  {
    if |s| > 1 {
      var p := s[..|s| - 1];
      assert p[0] == s[0];
      CanonicalPositive(p);
    }
  }

  /** Canonical digit strings are exactly the outputs of `NatToString`. */
  lemma {:induction false} NatToStringOfValue(s: string)
    requires CanonicalDigits(s)
    ensures NatToString(DigitsValue(s)) == s
    decreases |s|
  {
    if |s| > 1 {
      var p := s[..|s| - 1];
      assert p[0] == s[0];
      CanonicalPositive(p);
      NatToStringOfValue(p);
      var v := DigitsValue(s);
      var d := DigitOf(s[|s| - 1]);
      assert v / 10 == DigitsValue(p) && v % 10 == d;
      assert DigitChar(d) == s[|s| - 1];
      assert p + [s[|s| - 1]] == s;
    } else {
      assert s[..0] == "";
      assert DigitsValue(s[..0]) == 0;
      assert DigitsValue(s) == DigitOf(s[0]);
    }
  }

  /** The decimal representation of an integer, with a `-` sign when negative. */
  function IntToString(n: int): string
  {
    if n < 0 then "-" + NatToString(-n) else NatToString(n)
  }

  /** The integer PHP reads from an array key string: a canonical decimal integer
      (optional `-`, no leading zeros, no `"-0"`) inside the 64-bit range. Every
      other string stays a string key. */
  function IntKey(k: string): (r: Option<int>)
    ensures r.Some? ==> MinInt <= r.value <= MaxInt && k == IntToString(r.value)
  {
    if |k| == 0 || !(IsDigit(k[0]) || k[0] == '-') then None
    else if |k| > 1 && k[0] == '-' && CanonicalDigits(k[1..]) && k[1..] != "0"
      && DigitsValue(k[1..]) <= -MinInt
    then
      NatToStringOfValue(k[1..]);
      CanonicalPositive(k[1..]);
      assert "-" + k[1..] == k;
      Some(-(DigitsValue(k[1..]) as int))
    else if CanonicalDigits(k) && DigitsValue(k) <= MaxInt then
      NatToStringOfValue(k);
      Some(DigitsValue(k))
    else None
  }

  /** A string is an integer key for `n` exactly when it is `n` written in decimal,
      and `n` is in the 64-bit range. */
  lemma IntKeyIff(k: string, n: int)
    ensures IntKey(k) == Some(n) <==> (MinInt <= n <= MaxInt && k == IntToString(n))
  {
    if MinInt <= n <= MaxInt && k == IntToString(n) {
      if n < 0 {
        var d := NatToString(-n);
        assert k[1..] == d;
        assert d != "0";
      } else {
        assert k[0] != '-';
      }
    }
  }
}
