/** STRINGS as the service uses them: searching and splitting on a separator, joining,
    decimal numerals, and the byte order in which `std::map` visits string keys. */
module Text {

  type Int32 = x: int | -0x8000_0000 <= x < 0x8000_0000

  datatype Option<+T> = None | Some(value: T)

  const SEPARATOR: string := "#"
  const DP_SUCCESS: Int32 := 0
  const DP_INVALID_PARAM: Int32 := 98566245
  const DP_INVALID_PARAMS: Int32 := 98566144

  // ---------------------------------------------------------------- splitting and joining

  predicate OccursAt(s: string, p: string, j: nat) {
    j + |p| <= |s| && s[j..j + |p|] == p
  }

  function FindFrom(s: string, p: string, start: nat): (i: int)
    ensures i >= 0 ==> i >= start && OccursAt(s, p, i)
    ensures forall j: nat :: start <= j && OccursAt(s, p, j) ==> 0 <= i <= j
    decreases |s| - start
  {
    if start + |p| > |s| then -1
    else if OccursAt(s, p, start) then start
    else FindFrom(s, p, start + 1)
  }

  /** First position of `p` in `s`, or -1. */
  function Find(s: string, p: string): int {
    FindFrom(s, p, 0)
  }

  predicate StartsWith(s: string, prefix: string) {
    Find(s, prefix) == 0
  }

  predicate EndsWith(s: string, suffix: string) {
    |suffix| <= |s| && s[|s| - |suffix|..] == suffix
  }

  /** The parts of `s` that are closed by an occurrence of `sep`; what follows the last one is dropped. */
  function Pieces(s: string, sep: string): seq<string>
    requires |sep| > 0
    decreases |s|
  {
    var i := Find(s, sep);
    if i < 0 then [] else [s[..i]] + Pieces(s[i + |sep|..], sep)
  }

  function Split(s: string): seq<string> {
    Pieces(s + SEPARATOR, SEPARATOR)
  }

  function Join(parts: seq<string>, delimiter: string): string {
    if |parts| == 0 then ""
    else if |parts| == 1 then parts[0]
    else parts[0] + delimiter + Join(parts[1..], delimiter)
  }

  method SplitString(str: string, splits: string, into: seq<string>) returns (code: Int32, res: seq<string>)
    requires |splits| > 0
    ensures str == "" ==> code == 98566144 && res == into
    ensures str != "" ==> code == DP_SUCCESS && res == into + Pieces(str + splits, splits)
  {
    res := into;
    if str == "" {
      return DP_INVALID_PARAMS, res;
    }
    var strs := str + splits;
    var pos := Find(strs, splits);
    while pos >= 0
      invariant pos == Find(strs, splits)
      invariant res + Pieces(strs, splits) == into + Pieces(str + splits, splits)
      decreases |strs|
    {
      var rest := strs[pos + |splits|..];
      assert res + Pieces(strs, splits) == res + [strs[..pos]] + Pieces(rest, splits);
      res, strs := res + [strs[..pos]], rest;
      pos := Find(strs, splits);
    }
    code := DP_SUCCESS;
  }

  method JoinString(strs: seq<string>, delimiter: string) returns (res: string)
    ensures res == Join(strs, delimiter)
  {
    res := "";
    for i := 0 to |strs|
      invariant i < |strs| ==> res == if i == 0 then "" else Join(strs[..i], delimiter) + delimiter
      invariant i == |strs| ==> res == Join(strs, delimiter)
    {
      assert strs[..i + 1] == strs[..i] + [strs[i]];
      if i > 0 {
        JoinSnoc(strs[..i], strs[i], delimiter);
      }
      res := res + strs[i];
      if i != |strs| - 1 {
        res := res + delimiter;
      } else {
        assert strs[..i + 1] == strs;
      }
    }
  }

  lemma {:induction false} JoinSnoc(parts: seq<string>, last: string, d: string)
    requires |parts| > 0
    ensures Join(parts + [last], d) == Join(parts, d) + d + last
  {
    if |parts| == 1 {
      assert (parts + [last])[1..] == [last];
    } else {
      assert (parts + [last])[1..] == parts[1..] + [last];
      JoinSnoc(parts[1..], last, d);
    }
  }

  /** A part free of the one-character separator is exactly the first piece. */
  lemma PiecesCons(a: string, c: char, rest: string)
    requires c !in a
    ensures Pieces(a + [c] + rest, [c]) == [a] + Pieces(rest, [c])
  {
    var s := a + [c] + rest;
    var i := Find(s, [c]);
    assert OccursAt(s, [c], |a|);
    assert i == |a| by {
      assert forall j | 0 <= j < |a| :: s[j] == a[j] != c;
      assert s[i..i + 1][0] == s[i];
    }
    assert s[..i] == a && s[i + 1..] == rest;
  }

  /** Splitting a join gives the parts back. */
  lemma {:induction false} SplitJoin(parts: seq<string>, c: char)
    requires |parts| > 0 && forall p :: p in parts ==> c !in p
    ensures Pieces(Join(parts, [c]) + [c], [c]) == parts
  {
    if |parts| == 1 {
      assert Join(parts, [c]) + [c] == parts[0] + [c] + "";
      PiecesCons(parts[0], c, "");
    } else {
      var rest := Join(parts[1..], [c]) + [c];
      assert Join(parts, [c]) + [c] == parts[0] + [c] + rest;
      PiecesCons(parts[0], c, rest);
      SplitJoin(parts[1..], c);
      assert [parts[0]] + parts[1..] == parts;
    }
  }

  /** Joining a split gives the string back, and no part holds the separator. */
  lemma {:induction false} JoinSplit(s: string, c: char)
    ensures var parts := Pieces(s + [c], [c]);
            Join(parts, [c]) == s && |parts| > 0 && forall p :: p in parts ==> c !in p
    decreases |s|
  {
    var i := Find(s, [c]);
    if i < 0 {
      assert forall j: nat | j < |s| :: OccursAt(s, [c], j) <==> s[j] == c;
      assert s + [c] == s + [c] + "";
      PiecesCons(s, c, "");
    } else {
      var a, b := s[..i], s[i + 1..];
      assert forall j: nat | j <= i :: OccursAt(s, [c], j) <==> s[j] == c;
      assert forall j | 0 <= j < i :: a[j] == s[j] != c;
      assert s == a + [c] + b;
      assert s + [c] == a + [c] + (b + [c]);
      PiecesCons(a, c, b + [c]);
      JoinSplit(b, c);
      assert ([a] + Pieces(b + [c], [c]))[1..] == Pieces(b + [c], [c]);
    }
  }

  /** What is left to split after `n` turns of the splitting loop. */
  function LeftAfter(strs: string, sep: string, n: nat): (left: string) {
    if n == 0 then strs
    else
      var left := LeftAfter(strs, sep, n - 1);
      var pos := Find(left, sep);
      if pos < 0 then left else left[pos + |sep|..]
  }

  lemma {:induction false} LeftShrinks(strs: string, sep: string, n: nat)
    ensures sep == "" ==> LeftAfter(strs, sep, n) == strs && Find(strs, sep) == 0
    ensures |sep| > 0 ==> Find(LeftAfter(strs, sep, n), sep) < 0 || |LeftAfter(strs, sep, n)| + n <= |strs|
  {
    assert OccursAt(strs, "", 0);
    if n > 0 {
      LeftShrinks(strs, sep, n - 1);
    }
  }

  /** The splitting loop ends if and only if the separator is not empty. */
  lemma SplitEndsExactly(strs: string, sep: string)
    ensures (exists n: nat :: Find(LeftAfter(strs, sep, n), sep) < 0) <==> |sep| > 0
  {
    if |sep| > 0 {
      LeftShrinks(strs, sep, |strs| + 1);
    } else {
      forall n: nat ensures Find(LeftAfter(strs, sep, n), sep) >= 0 {
        LeftShrinks(strs, sep, n);
      }
    }
  }

  // ---------------------------------------------------------------- decimal numerals

  predicate IsDigit(c: char) {
    '0' <= c <= '9'
  }

  function Digits(n: nat): (s: string)
    ensures |s| > 0 && forall c :: c in s ==> IsDigit(c)
  {
    var last := [('0' as int + n % 10) as char];
    if n < 10 then last else Digits(n / 10) + last
  }

  /** `std::to_string` on a signed integer. */
  function ToString(n: int): string {
    if n < 0 then "-" + Digits(-n) else Digits(n)
  }

  function Magnitude(s: string): nat
    requires forall c :: c in s ==> IsDigit(c)
  {
    if s == "" then 0
    else
      assert IsDigit(s[|s| - 1]);
      10 * Magnitude(s[..|s| - 1]) + (s[|s| - 1] as int - '0' as int)
  }

  predicate Signed(s: string) {
    s != "" && (s[0] == '-' || s[0] == '+')
  }

  /** The pattern `^[-+]?[0-9]+$`. */
  predicate IsNumStr(s: string) {
    var body := if Signed(s) then s[1..] else s;
    body != "" && forall c :: c in body ==> IsDigit(c)
  }

  function Wrap32(n: int): Int32 {
    (n + 0x8000_0000) % 0x1_0000_0000 - 0x8000_0000
  }

  /** `atoi` on a numeral; a numeral outside 32 bits wraps around. */
  function Atoi(s: string): Int32
    requires IsNumStr(s)
  {
    if s[0] == '-' then Wrap32(0 - Magnitude(s[1..]))
    else if s[0] == '+' then Wrap32(Magnitude(s[1..]))
    else Wrap32(Magnitude(s))
  }

  lemma {:induction false} MagnitudeDigits(n: nat)
    ensures Magnitude(Digits(n)) == n
  {
    if n >= 10 {
      MagnitudeDigits(n / 10);
      assert Digits(n)[..|Digits(n)| - 1] == Digits(n / 10);
    } else {
      assert Digits(n)[..0] == "";
    }
  }

  lemma WrapInRange(n: Int32)
    ensures Wrap32(n) == n
  {
  }

  /** Every 32-bit number is printed as a numeral without '#', and `atoi` reads it back. */
  lemma AtoiToString(n: Int32)
    ensures IsNumStr(ToString(n)) && Atoi(ToString(n)) == n
    ensures '#' !in ToString(n) && ToString(n) != ""
  {
    var m: nat := if n < 0 then 0 - n else n;
    var digits := Digits(m);
    MagnitudeDigits(m);
    WrapInRange(n);
    assert IsDigit(digits[0]);
    if n < 0 {
      assert ToString(n)[1..] == digits;
    }
  }

  lemma MagnitudeOf(n: nat)
    ensures IsNumStr("+" + Digits(n)) && Atoi("+" + Digits(n)) == Wrap32(n)
    ensures IsNumStr("-" + Digits(n)) && Atoi("-" + Digits(n)) == Wrap32(0 - n)
    ensures IsNumStr("0" + Digits(n)) && Atoi("0" + Digits(n)) == Wrap32(n)
  {
    var digits := Digits(n);
    MagnitudeDigits(n);
    LeadingZero(digits);
    assert ("+" + digits)[1..] == digits && ("-" + digits)[1..] == digits;
    assert forall c :: c in "0" + digits ==> IsDigit(c);
  }

  lemma {:induction false} LeadingZero(s: string)
    requires forall c :: c in s ==> IsDigit(c)
    ensures (forall c :: c in "0" + s ==> IsDigit(c)) && Magnitude("0" + s) == Magnitude(s)
  {
    assert forall c :: c in "0" + s ==> IsDigit(c);
    if s == "" {
      assert "0" + s == "0" && "0"[..0] == "";
    } else {
      var n := |s| - 1;
      LeadingZero(s[..n]);
      assert ("0" + s)[..n + 1] == "0" + s[..n];
    }
  }

  // ---------------------------------------------------------------- key order

  /** Byte-wise lexicographic `<` of `std::string`. */
  predicate Less(a: string, b: string) {
    b != "" && (a == "" || a[0] < b[0] || (a[0] == b[0] && Less(a[1..], b[1..])))
  }

  lemma {:induction false} LessTrichotomy(a: string, b: string)
    ensures (if Less(a, b) then 1 else 0) + (if Less(b, a) then 1 else 0) + (if a == b then 1 else 0) == 1
  {
    if a != "" && b != "" && a[0] == b[0] {
      LessTrichotomy(a[1..], b[1..]);
      assert a == [a[0]] + a[1..] && b == [b[0]] + b[1..];
    }
  }

  lemma {:induction false} LessTransitive(a: string, b: string, c: string)
    requires Less(a, b) && Less(b, c)
    ensures Less(a, c)
  {
    if a != "" && a[0] == b[0] == c[0] {
      LessTransitive(a[1..], b[1..], c[1..]);
    }
  }

  /** A string comes before every longer one it begins. */
  lemma {:induction false} ShorterFirst(a: string, b: string)
    requires b != ""
    ensures Less(a, a + b)
  {
    if a != "" {
      ShorterFirst(a[1..], b);
      assert (a + b)[1..] == a[1..] + b;
    }
  }

  ghost predicate IsLeast(k: string, keys: set<string>) {
    k in keys && forall j :: j in keys && j != k ==> Less(k, j)
  }

  lemma {:induction false} LeastExists(keys: set<string>)
    requires keys != {}
    ensures exists k :: IsLeast(k, keys)
  {
    var x :| x in keys;
    var rest := keys - {x};
    if rest == {} {
      assert keys == {x};
      assert IsLeast(x, keys);
    } else {
      LeastExists(rest);
      var k :| IsLeast(k, rest);
      LessTrichotomy(x, k);
      if Less(k, x) {
        assert IsLeast(k, keys);
      } else {
        forall j | j in keys && j != x ensures Less(x, j) {
          if j != k {
            LessTransitive(x, k, j);
          }
        }
        assert IsLeast(x, keys);
      }
    }
  }

  ghost function Least(keys: set<string>): (k: string)
    requires keys != {}
    ensures k in keys && IsLeast(k, keys)
  {
    LeastExists(keys);
    var k :| IsLeast(k, keys);
    k
  }

  lemma LeastUnique(k: string, keys: set<string>)
    requires IsLeast(k, keys)
    ensures k == Least(keys)
  {
    LessTrichotomy(k, Least(keys));
  }

  ghost function Greatest(keys: set<string>): (k: string)
    requires keys != {}
    ensures k in keys && forall j :: j in keys && j != k ==> Less(j, k)
  {
    hide Less;
    var k := Least(keys);
    if keys == {k} then k else
      assert keys - {k} != {};
      Greatest(keys - {k})
  }

  /** The entries in the order a `std::map` iterator visits them. */
  ghost function Listing<V>(m: map<string, V>): (s: seq<(string, V)>)
    ensures |s| == |m|
  {
    if m == map[] then []
    else
      var k := Least(m.Keys);
      assert (m - {k}).Keys == m.Keys - {k};
      [(k, m[k])] + Listing(m - {k})
  }

  /** Assigning the pairs one after the other. */
  function Overlay<V>(m: map<string, V>, pairs: seq<(string, V)>): map<string, V>
    decreases |pairs|
  {
    if pairs == [] then m else Overlay(m[pairs[0].0 := pairs[0].1], pairs[1..])
  }

  lemma MergeStep<V>(base: map<string, V>, m: map<string, V>, k: string)
    requires k in m
    ensures base[k := m[k]] + (m - {k}) == base + m
  {
    var l, r := base[k := m[k]] + (m - {k}), base + m;
    assert forall j :: j in l <==> j in r;
    assert forall j :: j in l ==> l[j] == r[j];
  }

  lemma {:induction false} OverlayListing<V>(base: map<string, V>, m: map<string, V>)
    ensures Overlay(base, Listing(m)) == base + m
    decreases |m|
  {
    hide Less, IsLeast;
    if m == map[] {
      assert base + m == base;
    } else {
      var k := Least(m.Keys);
      var rest := m - {k};
      assert rest.Keys == m.Keys - {k};
      assert Listing(m) == [(k, m[k])] + Listing(rest);
      OverlayListing(base[k := m[k]], rest);
      MergeStep(base, m, k);
    }
  }

  /** One step of such an iterator. */
  method NextKey(keys: set<string>) returns (k: string)
    requires keys != {}
    ensures k in keys && IsLeast(k, keys) && k == Least(keys)
  {
    k :| k in keys;
    var rest := keys - {k};
    while rest != {}
      invariant k in keys && rest <= keys - {k}
      invariant forall j :: j in keys - rest && j != k ==> Less(k, j)
      decreases rest
    {
      var j :| j in rest;
      LessTrichotomy(j, k);
      if Less(j, k) {
        forall i | i in keys - rest && i != k ensures Less(j, i) {
          LessTransitive(j, k, i);
        }
        k := j;
      }
      rest := rest - {j};
    }
    LeastUnique(k, keys);
  }
}
