/** The parts of Python's `str` API that the pipeline relies on, over
    `seq<char>`. Whitespace is Python's `isspace` set; case mapping is
    the ASCII subset of Python's Unicode tables. */
module Strings {

  import opened Wrappers

  /** `c.isspace()`, the whitespace `strip()`, `split()` and `\s` use:
      \t to \r, the separators \x1c to \x1f, the space, and the Unicode
      spaces and line and paragraph separators. */
  predicate IsSpace(c: char) {
    ('\t' <= c <= '\r') || ('\U{1C}' <= c <= ' ') || c == '\U{85}' || c == '\U{A0}'
    || c == '\U{1680}' || ('\U{2000}' <= c <= '\U{200A}') || c == '\U{2028}' || c == '\U{2029}'
    || c == '\U{202F}' || c == '\U{205F}' || c == '\U{3000}'
  }

  predicate IsDigit(c: char) {
    '0' <= c <= '9'
  }

  /** True when some character of `s` is not whitespace, i.e. `s.strip()` is truthy. */
  predicate HasNonSpace(s: string) {
    exists i :: 0 <= i < |s| && !IsSpace(s[i])
  }

  predicate IsPrefix(p: string, s: string) {
    |p| <= |s| && s[..|p|] == p
  }

  /** `t` occurs in `s` starting at index `i`. */
  predicate OccursAt(t: string, s: string, i: int) {
    0 <= i && i + |t| <= |s| && s[i..i + |t|] == t
  }

  /** Python's `t in s` for strings. */
  predicate Contains(s: string, t: string) {
    exists i | 0 <= i <= |s| - |t| :: OccursAt(t, s, i)
  }

  /** `s.lstrip()` */
  function TrimLeft(s: string): (r: string)
    ensures |r| <= |s|
    ensures r == [] || !IsSpace(r[0])
    ensures forall i :: 0 <= i < |s| - |r| ==> IsSpace(s[i])
  {
    if s == [] || !IsSpace(s[0]) then s else TrimLeft(s[1..])
  }

  /** `s.rstrip()` */
  function TrimRight(s: string): (r: string)
    ensures |r| <= |s|
    ensures r == [] || !IsSpace(r[|r| - 1])
    ensures forall i :: |r| <= i < |s| ==> IsSpace(s[i])
  {
    if s == [] || !IsSpace(s[|s| - 1]) then s else TrimRight(s[..|s| - 1])
  }

  /** What `s.lstrip()` leaves is a suffix of `s`. */
  lemma {:induction false} TrimLeftIsSuffix(s: string)
    ensures TrimLeft(s) == s[|s| - |TrimLeft(s)|..]
  {
    if s != [] && IsSpace(s[0]) {
      TrimLeftIsSuffix(s[1..]);
    }
  }

  /** What `s.rstrip()` leaves is a prefix of `s`. */
  lemma {:induction false} TrimRightIsPrefix(s: string)
    ensures TrimRight(s) == s[..|TrimRight(s)|]
  {
    if s != [] && IsSpace(s[|s| - 1]) {
      TrimRightIsPrefix(s[..|s| - 1]);
    }
  }

  /** `s.strip()`: a contiguous piece of `s` that neither starts nor ends
      with whitespace, obtained by removing only whitespace. */
  function Strip(s: string): (r: string)
    ensures |r| <= |s|
    ensures r == [] || (!IsSpace(r[0]) && !IsSpace(r[|r| - 1]))
    ensures r == [] <==> !HasNonSpace(s)
  {
    var l := TrimLeft(s);
    var r := TrimRight(l);
    TrimLeftIsSuffix(s);
    TrimRightIsPrefix(l);
    assert r != [] ==> s[|s| - |l|] == r[0];
    assert !HasNonSpace(s) ==> r == [] by {
      if r != [] {
        assert !IsSpace(s[|s| - |l|]);
      }
    }
    r
  }

  /** Index of the stripped piece inside `s`. */
  function StripStart(s: string): (k: nat)
    ensures k + |Strip(s)| <= |s| && s[k..k + |Strip(s)|] == Strip(s)
  {
    var l := TrimLeft(s);
    TrimLeftIsSuffix(s);
    TrimRightIsPrefix(l);
    assert s[|s| - |l|..][..|TrimRight(l)|] == TrimRight(l);
    |s| - |l|
  }

  lemma StripIdempotent(s: string)
    ensures Strip(Strip(s)) == Strip(s)
  {
    var r := Strip(s);
    if r != [] {
      assert TrimLeft(r) == r;
      assert TrimRight(r) == r;
    }
  }

  /** Python's `s[:n]` for a non-negative `n`. */
  function Prefix(s: string, n: nat): (r: string)
    ensures |r| == if |s| <= n then |s| else n
    ensures IsPrefix(r, s)
  {
    if |s| <= n then s else s[..n]
  }

  /** Python's `s[:n]` for any integer `n`: a negative bound counts from the end. */
  function PyPrefix(s: string, n: int): (r: string)
    ensures IsPrefix(r, s)
    ensures n >= 0 ==> r == Prefix(s, n)
    ensures n < 0 ==> |r| == if |s| + n < 0 then 0 else |s| + n
  {
    if n >= 0 then Prefix(s, n)
    else if |s| + n < 0 then []
    else s[..|s| + n]
  }

  /** The idiom `s[:n] + "..." if len(s) > n else s`. */
  function Ellipsized(s: string, n: nat): (r: string)
    ensures |s| <= n ==> r == s
    ensures |s| > n ==> |r| == n + 3 && IsPrefix(s[..n], r) && r[n..] == "..."
    ensures |r| <= n + 3
  {
    if |s| > n then s[..n] + "..." else s
  }

  function ToLowerChar(c: char): char {
    if 'A' <= c <= 'Z' then (c as int + 32) as char else c
  }

  function ToUpperChar(c: char): char {
    if 'a' <= c <= 'z' then (c as int - 32) as char else c
  }

  /** `s.lower()` on the ASCII letters. */
  function Lower(s: string): (r: string)
    ensures |r| == |s|
    ensures forall i :: 0 <= i < |s| ==> r[i] == ToLowerChar(s[i])
  {
    if s == [] then [] else [ToLowerChar(s[0])] + Lower(s[1..])
  }

  /** `s.upper()` on the ASCII letters. */
  function Upper(s: string): (r: string)
    ensures |r| == |s|
    ensures forall i :: 0 <= i < |s| ==> r[i] == ToUpperChar(s[i])
  {
    if s == [] then [] else [ToUpperChar(s[0])] + Upper(s[1..])
  }

  /** First index of `c` in `s`, or `|s|` when absent. */
  function IndexOf(s: string, c: char): (k: nat)
    ensures k <= |s|
    ensures k < |s| ==> s[k] == c
    ensures forall i :: 0 <= i < k ==> s[i] != c
    ensures k == |s| <==> c !in s
  {
    if s == [] then 0 else if s[0] == c then 0 else 1 + IndexOf(s[1..], c)
  }

  /** `s.split(c)` for a one-character separator: never empty, no piece
      contains the separator, and joining the pieces back gives `s`. */
  function Split(s: string, c: char): (r: seq<string>)
    ensures |r| >= 1
    ensures forall k :: 0 <= k < |r| ==> c !in r[k]
    ensures Join(r, [c]) == s
    decreases |s|
  {
    var k := IndexOf(s, c);
    if k == |s| then [s]
    else
      var rest := Split(s[k + 1..], c);
      assert Join([s[..k]] + rest, [c]) == s[..k] + [c] + Join(rest, [c]);
      assert s == s[..k] + [c] + s[k + 1..];
      [s[..k]] + rest
  }

  /** `sep.join(parts)` */
  function Join(parts: seq<string>, sep: string): (r: string)
    ensures |parts| == 1 ==> r == parts[0]
    ensures |parts| == 0 ==> r == []
  {
    if |parts| == 0 then []
    else if |parts| == 1 then parts[0]
    else parts[0] + sep + Join(parts[1..], sep)
  }

  lemma JoinCons(p: string, rest: seq<string>, sep: string)
    requires |rest| >= 1
    ensures Join([p] + rest, sep) == p + sep + Join(rest, sep)
  {
    assert ([p] + rest)[1..] == rest;
  }

  /** `s.split(c, 1)`: the text before the first `c` and, when `c`
      occurs, the text after it. */
  function SplitOnce(s: string, c: char): (r: (string, Option<string>))
    ensures r.1.Some? <==> c in s
    ensures c !in r.0
    ensures r.1.Some? ==> s == r.0 + [c] + r.1.value
    ensures r.1.None? ==> r.0 == s
  {
    var k := IndexOf(s, c);
    if k == |s| then (s, None)
    else
      assert s == s[..k] + [c] + s[k + 1..];
      (s[..k], Some(s[k + 1..]))
  }

  function DigitChar(d: nat): char
    requires d < 10
  {
    ['0', '1', '2', '3', '4', '5', '6', '7', '8', '9'][d]
  }

  /** `str(n)` for a natural number: its decimal digits. */
  function NatToString(n: nat): (r: string)
    ensures |r| >= 1
    ensures forall i :: 0 <= i < |r| ==> IsDigit(r[i])
  {
    if n < 10 then [DigitChar(n)] else NatToString(n / 10) + [DigitChar(n % 10)]
  }
  /** End of the run of whitespace that starts at `j`. */
  function SpaceRunEnd(s: string, j: nat): (e: nat)
    requires j <= |s|
    ensures j <= e <= |s| && (e == |s| || !IsSpace(s[e]))
    ensures forall m :: j <= m < e ==> IsSpace(s[m])
    decreases |s| - j
  {
    if j == |s| || !IsSpace(s[j]) then j else SpaceRunEnd(s, j + 1)
  }

  /** First index at which `t` occurs in `s` at or after `from`. */
  function FindFrom(s: string, t: string, from: nat): (r: Option<nat>)
    ensures r.Some? ==> from <= r.value && OccursAt(t, s, r.value)
    ensures r.Some? ==> forall j | from <= j < r.value :: !OccursAt(t, s, j)
    ensures r.None? ==> forall j | from <= j :: !OccursAt(t, s, j)
    decreases |s| - from
  {
    if from + |t| > |s| then None
    else if OccursAt(t, s, from) then Some(from)
    else FindFrom(s, t, from + 1)
  }

  /** `s.find(t)`: the leftmost occurrence of `t` in `s`. */
  function Find(s: string, t: string): (r: Option<nat>)
    ensures r.Some? ==> OccursAt(t, s, r.value) && forall j | 0 <= j < r.value :: !OccursAt(t, s, j)
    ensures r.None? <==> !Contains(s, t)
  {
    FindFrom(s, t, 0)
  }

  /** `t` occurs in any string that has it in the middle. */
  lemma ContainsMiddle(a: string, t: string, b: string)
    ensures Contains(a + t + b, t)
  {
    assert (a + t + b)[|a|..|a| + |t|] == t;
    assert OccursAt(t, a + t + b, |a|);
  }

  /** Concatenation regroups freely. */
  lemma AppendAssoc<T>(a: seq<T>, b: seq<T>, c: seq<T>)
    ensures (a + b) + c == a + (b + c)
  {
  }

  /** Every string contains itself. */
  lemma ContainsSelf(t: string)
    ensures Contains(t, t)
  {
    assert OccursAt(t, t, 0);
  }

  /** Appending on either side keeps an occurrence. */
  lemma ContainsExtend(a: string, b: string, t: string)
    ensures Contains(a, t) ==> Contains(a + b, t)
    ensures Contains(b, t) ==> Contains(a + b, t)
  {
    if Contains(a, t) {
      var k :| 0 <= k <= |a| - |t| && OccursAt(t, a, k);
      assert (a + b)[k..k + |t|] == a[k..k + |t|];
      assert OccursAt(t, a + b, k);
    }
    if Contains(b, t) {
      var k :| 0 <= k <= |b| - |t| && OccursAt(t, b, k);
      assert (a + b)[|a| + k..|a| + k + |t|] == b[k..k + |t|];
      assert OccursAt(t, a + b, |a| + k);
    }
  }

  /** Python's `s[lo:hi]` for indices that may lie outside the string. */
  function PySlice(s: string, lo: int, hi: int): (r: string)
    ensures |r| <= |s|
    ensures Contains(s, r)
  {
    var a := if lo < 0 then 0 else if lo > |s| then |s| else lo;
    var b := if hi < a then a else if hi > |s| then |s| else hi;
    assert OccursAt(s[a..b], s, a);
    s[a..b]
  }

  /** `str(n)` for any integer. */
  function IntToString(n: int): (r: string)
    ensures |r| >= 1
    ensures n >= 0 ==> r == NatToString(n)
    ensures n < 0 ==> r[0] == '-' && r[1..] == NatToString(-n)
  {
    if n >= 0 then NatToString(n) else "-" + NatToString(-n)
  }

  /** `re.sub(r"\n+", " ", s)`: every run of newlines becomes one space. */
  function CollapseNewlines(s: string): (r: string)
    ensures |r| <= |s|
    ensures '\n' !in r
    ensures HasNonSpace(s) ==> HasNonSpace(r)
  {
    if s == [] then []
    else if s[0] == '\n' && |s| > 1 && s[1] == '\n' then CollapseNewlines(s[1..])
    else
      var rest := CollapseNewlines(s[1..]);
      var r := [if s[0] == '\n' then ' ' else s[0]] + rest;
      assert HasNonSpace(s) ==> HasNonSpace(r) by {
        if HasNonSpace(s) && !IsSpace(s[0]) {
          assert !IsSpace(r[0]);
        } else if HasNonSpace(s) {
          var i :| 0 <= i < |s| && !IsSpace(s[i]);
          assert !IsSpace(s[1..][i - 1]);
          var j :| 0 <= j < |rest| && !IsSpace(rest[j]);
          assert r[j + 1] == rest[j];
        }
      }
      r
  }
}
