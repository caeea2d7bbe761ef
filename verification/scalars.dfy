/** Scalar built-ins on `long` and `string` values: `bin`/`floor`, the `%`
    operator, `substring`, `replace_string`, `strlen`, `isnull` and
    `isempty`. Null arguments are handled by the caller except where a
    function says otherwise. */
module Scalars {
  import opened Wrappers
  import opened Values
  import opened Text

  // ---------------------------------------------------------------------
  // bin and floor

  /** `bin(a, size)` (alias `floor`) on longs: `a` rounded down, toward
      negative infinity, to a multiple of `size`; null for a size that is
      not positive. */
  function Bin(a: int, size: int): (r: Option<int>)
    ensures size > 0 <==> r.Some?
    ensures r.Some? ==> r.value <= a < r.value + size && r.value % size == 0
  {
    if size <= 0 then None
    else
      var q := a / size;
      DivModUnique(a, size, q, a - q * size);
      DivModUnique(q * size, size, q, 0);
      Some(q * size)
  }

  /** Quotient and remainder are unique: the only way to write `x` as
      `q * size + r` with `0 <= r < size` is the Euclidean one. */
  lemma DivModUnique(x: int, size: int, q: int, r: int)
    requires size > 0 && x == q * size + r && 0 <= r < size
    ensures x / size == q && x % size == r
  {
    var q', r' := x / size, x % size;
    assert x == q' * size + r';
    Distribute(q, q', size);
    if q > q' {
      AtLeastOnce(q - q', size);
    } else if q < q' {
      AtLeastOnce(q' - q, size);
    }
  }

  lemma Distribute(a: int, b: int, c: int)
    ensures a * c - b * c == (a - b) * c
  {
  }

  lemma AtLeastOnce(d: int, size: int)
    requires d >= 1 && size > 0
    ensures d * size >= size
  {
    assert d * size == (d - 1) * size + size;
  }

  /** The bin is the only multiple of `size` in `(a - size, a]`. */
  lemma BinUnique(a: int, size: int, m: int, k: int)
    requires size > 0 && m == k * size && m <= a < m + size
    ensures Bin(a, size) == Some(m)
  {
    DivModUnique(a, size, k, a - m);
  }

  /** Binning a bin changes nothing. */
  lemma BinIdempotent(a: int, size: int)
    requires size > 0
    ensures Bin(Bin(a, size).value, size) == Bin(a, size)
  {
    var r := Bin(a, size).value;
    BinUnique(r, size, r, r / size);
  }

  // ---------------------------------------------------------------------
  // The % operator

  /** Integer division truncating toward zero, as on .NET `long`. */
  function TruncDiv(a: int, b: int): int
    requires b != 0
  {
    var q := Abs(a) / Abs(b);
    if (a < 0) != (b < 0) then -q else q
  }

  function Abs(x: int): nat {
    if x < 0 then -x else x
  }

  /** `a % b` on longs: the remainder of truncating division, which has the
      dividend's sign; null for a zero divisor. */
  function Mod(a: int, b: int): (r: Option<int>)
    ensures b != 0 <==> r.Some?
    ensures r.Some? ==> a == b * TruncDiv(a, b) + r.value
    ensures r.Some? ==> Abs(r.value) < Abs(b)
    ensures r.Some? ==> (a >= 0 ==> r.value >= 0) && (a <= 0 ==> r.value <= 0)
  {
    if b == 0 then None
    else
      var m := Abs(a) % Abs(b);
      TruncDivIdentity(a, b);
      Some(if a < 0 then -m else m)
  }

  /** Truncating division and the remainder `%` returns recompose the
      dividend. */
  lemma TruncDivIdentity(a: int, b: int)
    requires b != 0
    ensures var m := Abs(a) % Abs(b);
            a == b * TruncDiv(a, b) + (if a < 0 then -m else m)
  {
    var x, y := Abs(a), Abs(b);
    var q: int, m: int := x / y, x % y;
    assert x == y * q + m;
    if b < 0 {
      assert b * -q == y * q;
      assert b * q == -(y * q);
    } else {
      assert b * -q == -(y * q);
    }
  }

  /** On a non-negative dividend `%` agrees with the Euclidean remainder;
      negating the dividend negates the result. */
  lemma ModReference(a: int, b: int)
    requires b != 0
    ensures a >= 0 ==> Mod(a, b) == Some(a % Abs(b))
    ensures Mod(-a, b) == Some(-Mod(a, b).value)
  {
  }

  // ---------------------------------------------------------------------
  // substring

  function Clamp(x: int, lo: int, hi: int): int
    requires lo <= hi
  {
    if x < lo then lo else if x > hi then hi else x
  }

  /** `substring(s, start, length)`: the start is clamped into the string
      and the end at its end, so out-of-range arguments give a shorter or
      empty result rather than an error; a missing length runs to the end. */
  function Substring(s: string, start: int, length: Option<int>): (r: string)
    ensures var b := Clamp(start, 0, |s|);
            && b + |r| <= |s|
            && r == s[b..b + |r|]
            && (length.None? ==> b + |r| == |s|)
            && (length.Some? ==> |r| == Clamp(length.value, 0, |s| - b))
  {
    var b := Clamp(start, 0, |s|);
    var e := match length
      case None => |s|
      case Some(n) => b + Clamp(n, 0, |s| - b);
    s[b..e]
  }

  /** A substring followed by the rest of the string is the string from the
      same start. */
  lemma SubstringSplit(s: string, start: nat, n: nat)
    ensures Substring(s, start, Some(n)) + Substring(s, start + n, None) == Substring(s, start, None)
  {
  }

  /** The whole string is a substring of itself. */
  lemma SubstringWhole(s: string)
    ensures Substring(s, 0, None) == s
    ensures Substring(s, 0, Some(|s|)) == s
  {
    assert s[0..|s|] == s;
  }

  // ---------------------------------------------------------------------
  // replace_string

  /** `replace_string(s, lookup, rewrite)`: every left-to-right,
      non-overlapping occurrence of `lookup` replaced by `rewrite`. An empty
      `lookup` leaves `s` unchanged. */
  function ReplaceString(s: string, lookup: string, rewrite: string): (r: string)
    ensures !HasInfix(s, lookup) ==> r == s
    decreases |s|
  {
    if |lookup| == 0 || |s| < |lookup| then s
    else if StartsWith(s, lookup) then
      assert s[0..] == s;
      rewrite + ReplaceString(s[|lookup|..], lookup, rewrite)
    else
      InfixOfTail(s, lookup);
      [s[0]] + ReplaceString(s[1..], lookup, rewrite)
  }

  lemma InfixOfTail(s: string, t: string)
    requires |s| > 0
    ensures HasInfix(s[1..], t) ==> HasInfix(s, t)
  {
    if HasInfix(s[1..], t) {
      var i :| 0 <= i <= |s[1..]| - |t| && StartsWith(s[1..][i..], t);
      assert s[1..][i..] == s[i + 1..];
    }
  }

  /** Replacement is splitting at the occurrences and joining the pieces
      with the rewrite. */
  lemma {:induction false} ReplaceIsSplitJoin(s: string, lookup: string, rewrite: string)
    requires |lookup| > 0
    ensures ReplaceString(s, lookup, rewrite) == Join(SplitOn(s, lookup), rewrite)
    decreases |s|
  {
    if |s| < |lookup| {
    } else if StartsWith(s, lookup) {
      var rest := SplitOn(s[|lookup|..], lookup);
      ReplaceIsSplitJoin(s[|lookup|..], lookup, rewrite);
      var parts := [[]] + rest;
      assert parts[1..] == rest;
      assert Join(parts, rewrite) == [] + rewrite + Join(rest, rewrite);
    } else {
      var rest := SplitOn(s[1..], lookup);
      ReplaceIsSplitJoin(s[1..], lookup, rewrite);
      JoinExtendHead([s[0]], rest, rewrite);
    }
  }

  /** Replacing a string by itself changes nothing. */
  lemma ReplaceBySelf(s: string, lookup: string)
    ensures ReplaceString(s, lookup, lookup) == s
  {
    if |lookup| > 0 {
      ReplaceIsSplitJoin(s, lookup, lookup);
      JoinSplitOn(s, lookup);
    }
  }

  // ---------------------------------------------------------------------
  // strlen, isnull, isempty

  /** `strlen(s)`: the number of characters. */
  function StrLen(s: string): (n: int)
    ensures n >= 0
    ensures n == 0 <==> s == ""
  {
    |s|
  }

  lemma StrLenAppend(s: string, t: string)
    ensures StrLen(s + t) == StrLen(s) + StrLen(t)
  {
  }

  /** `isnull(c)`: the cell is null. A string is never null: the empty
      string is a value. */
  function IsNull(c: Cell): (b: bool)
    ensures b <==> c.None?
  {
    c.None?
  }

  /** `isempty(c)`: the cell is null or the empty string. */
  function IsEmpty(c: Cell): (b: bool)
    ensures b <==> IsNull(c) || c == Some(VString(""))
  {
    match c
    case None => true
    case Some(v) => v == VString("")
  }

  /** An empty string is empty but not null, and only an empty string is a
      string of length zero. */
  lemma EmptyStringIsNotNull(s: string)
    ensures IsEmpty(Some(VString(s))) <==> StrLen(s) == 0
    ensures !IsNull(Some(VString(s)))
  {
  }
}
