/**
 * The pieces of Python's `str`, `int()` and `os.path.join` that the analyser's
 * string handling depends on, with the facts the rest of the model uses.
 */
module PyStr {

  /** `p` occurs in `s` starting at index `i`. */
  ghost predicate OccursAt(s: string, p: string, i: int) {
    0 <= i && i + |p| <= |s| && s[i..i + |p|] == p
  }

  lemma {:induction false} OccursShift(s: string, p: string, j: int)
    requires |s| > 0 && j >= 1
    ensures OccursAt(s, p, j) <==> OccursAt(s[1..], p, j - 1)
  {
    if j + |p| <= |s| {
      assert s[1..][j - 1..j - 1 + |p|] == s[j..j + |p|];
    }
  }

  /** `s.find(p)`: the lowest index at which `p` occurs in `s`, or -1 when it does not occur. */
  function Find(s: string, p: string): (i: int)
    ensures -1 <= i <= |s|
    ensures i >= 0 ==> OccursAt(s, p, i)
    ensures i >= 0 ==> forall j :: 0 <= j < i ==> !OccursAt(s, p, j)
    ensures i < 0 ==> forall j :: !OccursAt(s, p, j)
    decreases |s|
  {
    if |s| < |p| then -1
    else if s[..|p|] == p then 0
    else
      var k := Find(s[1..], p);
      assert !OccursAt(s, p, 0);
      assert forall j :: j >= 1 ==> (OccursAt(s, p, j) <==> OccursAt(s[1..], p, j - 1)) by {
        forall j | j >= 1 { OccursShift(s, p, j); }
      }
      if k < 0 then -1 else k + 1
  }

  /** `p in s` for strings. */
  predicate Contains(s: string, p: string) {
    Find(s, p) >= 0
  }

  /**
   * `s.replace(p, r)`: every occurrence of `p`, found left to right and without
   * overlap, is replaced by `r`.
   */
  function Replace(s: string, p: string, r: string): (t: string)
    requires |p| > 0
    ensures |r| <= |p| ==> |t| <= |s|
    decreases |s|
  {
    if |s| < |p| then s
    else if s[..|p|] == p then r + Replace(s[|p|..], p, r)
    else [s[0]] + Replace(s[1..], p, r)
  }

  /** Replacing introduces no character that is in neither the string nor the replacement. */
  lemma {:induction false} ReplaceChars(s: string, p: string, r: string)
    requires |p| > 0
    ensures forall c :: c in Replace(s, p, r) ==> c in s || c in r
    decreases |s|
  {
    if |s| < |p| {
    } else if s[..|p|] == p {
      ReplaceChars(s[|p|..], p, r);
      assert forall c :: c in s[|p|..] ==> c in s;
    } else {
      ReplaceChars(s[1..], p, r);
      assert forall c :: c in s[1..] ==> c in s;
    }
  }

  /** Replacing a pattern that does not occur leaves the string as it is. */
  lemma {:induction false} ReplaceAbsent(s: string, p: string, r: string)
    requires |p| > 0 && !Contains(s, p)
    ensures Replace(s, p, r) == s
    decreases |s|
  {
    if |s| >= |p| {
      assert s[..|p|] != p by { assert !OccursAt(s, p, 0); }
      assert Find(s[1..], p) < 0;
      ReplaceAbsent(s[1..], p, r);
      assert [s[0]] + s[1..] == s;
    }
  }

  /** The first replacement happens at the first occurrence. */
  lemma {:induction false} ReplaceAtFirst(s: string, p: string, r: string, k: int)
    requires |p| > 0 && k == Find(s, p) && k >= 0
    ensures k + |p| <= |s|
    ensures Replace(s, p, r) == s[..k] + (r + Replace(s[k + |p|..], p, r))
  {
    ReplaceFrom(s, p, r, 0, k);
    assert s[0..] == s;
  }

  /** Replacing in the suffix from `i`, where the next occurrence is at `k`. */
  lemma {:induction false} ReplaceFrom(s: string, p: string, r: string, i: int, k: int)
    requires |p| > 0 && 0 <= i <= k && OccursAt(s, p, k)
    requires forall j :: i <= j < k ==> !OccursAt(s, p, j)
    ensures Replace(s[i..], p, r) == s[i..k] + (r + Replace(s[k + |p|..], p, r))
    decreases k - i
  {
    if i == k {
      ReplaceHere(s, p, r, k);
      assert s[i..k] == [];
    } else {
      ReplaceFrom(s, p, r, i + 1, k);
      assert !OccursAt(s, p, i);
      ReplaceFromStep(s, p, r, i, k, r + Replace(s[k + |p|..], p, r));
    }
  }

  /** One character before the next occurrence is kept. */
  lemma {:induction false} ReplaceFromStep(s: string, p: string, r: string, i: int, k: int, w: string)
    requires |p| > 0 && 0 <= i < k && k + |p| <= |s| && !OccursAt(s, p, i)
    requires Replace(s[i + 1..], p, r) == s[i + 1..k] + w
    ensures Replace(s[i..], p, r) == s[i..k] + w
  {
    ReplaceSkipAt(s, p, r, i);
    ConsSlice(s, i, k, w);
  }

  /** Where the suffix from `k` starts with `p`, it is replaced there. */
  lemma {:induction false} ReplaceHere(s: string, p: string, r: string, k: int)
    requires |p| > 0 && 0 <= k && k + |p| <= |s| && s[k..k + |p|] == p
    ensures Replace(s[k..], p, r) == r + Replace(s[k + |p|..], p, r)
  {
    var t := s[k..];
    assert t[..|p|] == p;
    assert t[|p|..] == s[k + |p|..];
  }

  /** Where the suffix from `i` does not start with `p`, its first character is kept. */
  lemma {:induction false} ReplaceSkipAt(s: string, p: string, r: string, i: int)
    requires |p| > 0 && 0 <= i && i + |p| <= |s| && s[i..i + |p|] != p
    ensures Replace(s[i..], p, r) == [s[i]] + Replace(s[i + 1..], p, r)
  {
    var t := s[i..];
    assert t[..|p|] == s[i..i + |p|];
    assert t[1..] == s[i + 1..];
  }

  /** Putting a character back in front of the slice that follows it. */
  lemma {:induction false} ConsSlice(s: string, i: int, k: int, w: string)
    requires 0 <= i < k <= |s|
    ensures [s[i]] + (s[i + 1..k] + w) == s[i..k] + w
  {
    assert [s[i]] + s[i + 1..k] == s[i..k];
  }

  /** A replacement by something shorter strictly shortens a string in which the pattern occurs. */
  lemma {:induction false} ReplaceShrinks(s: string, p: string, r: string)
    requires |p| > 0 && |r| < |p| && Contains(s, p)
    ensures |Replace(s, p, r)| < |s|
  {
    ReplaceAtFirst(s, p, r, Find(s, p));
  }

  /** Replacing a one-character pattern by text without that character removes it everywhere. */
  lemma {:induction false} ReplaceRemovesChar(s: string, c: char, r: string)
    requires c !in r
    ensures c !in Replace(s, [c], r)
    decreases |s|
  {
    if |s| >= 1 {
      ReplaceRemovesChar(s[1..], c, r);
    }
  }

  /** When the first occurrence of `p` in `a + p` is the appended one, replacing in `a + p + b` keeps `a`. */
  lemma {:induction false} ReplacePrefix(a: string, p: string, r: string, b: string)
    requires |p| > 0 && Find(a + p, p) == |a|
    ensures Replace(a + p + b, p, r) == a + r + Replace(b, p, r)
  {
    var s := a + p + b;
    assert (a + p)[|a|..|a| + |p|] == p;
    assert s[..|a| + |p|] == a + p;
    forall j | 0 <= j < |a| ensures !OccursAt(s, p, j) {
      assert !OccursAt(a + p, p, j);
      assert s[j..j + |p|] == (a + p)[j..j + |p|];
    }
    assert OccursAt(s, p, |a|) by { assert s[|a|..|a| + |p|] == p; }
    assert Find(s, p) == |a|;
    ReplaceAtFirst(s, p, r, |a|);
    assert s[..|a|] == a;
    assert s[|a| + |p|..] == b;
  }

  /** An occurrence at `k` with none before it is the one `find` reports. */
  lemma {:induction false} FindAt(s: string, p: string, k: int)
    requires OccursAt(s, p, k)
    requires forall j :: 0 <= j < k ==> !OccursAt(s, p, j)
    ensures Find(s, p) == k
  {
  }

  /** The text before the first occurrence of a non-empty pattern does not contain it. */
  lemma {:induction false} BeforeFirstAbsent(s: string, p: string)
    requires |p| > 0 && Find(s, p) >= 0
    ensures !Contains(s[..Find(s, p)], p)
  {
    var r := s[..Find(s, p)];
    forall j | 0 <= j && j + |p| <= |r| ensures !OccursAt(r, p, j) {
      assert j < Find(s, p) && !OccursAt(s, p, j);
      assert r[j..j + |p|] == s[j..j + |p|];
    }
  }

  /** The number of occurrences of `c` in `s`. */
  function CountChar(s: string, c: char): nat {
    if s == [] then 0 else (if s[0] == c then 1 else 0) + CountChar(s[1..], c)
  }

  lemma {:induction false} CountCharZero(s: string, c: char)
    ensures CountChar(s, c) == 0 <==> c !in s
  {
    if s != [] {
      CountCharZero(s[1..], c);
      assert s == [s[0]] + s[1..];
    }
  }

  lemma {:induction false} CountCharAppend(a: string, b: string, c: char)
    ensures CountChar(a + b, c) == CountChar(a, c) + CountChar(b, c)
  {
    if a == [] {
      assert a + b == b;
    } else {
      assert (a + b)[0] == a[0];
      assert (a + b)[1..] == a[1..] + b;
      CountCharAppend(a[1..], b, c);
    }
  }

  /** `sep.join(parts)` for a one-character separator. */
  function Join(parts: seq<string>, sep: char): string {
    if |parts| == 0 then []
    else if |parts| == 1 then parts[0]
    else parts[0] + [sep] + Join(parts[1..], sep)
  }

  /** `s.split(sep)` for a one-character separator: the pieces between separators, empty ones included. */
  function Split(s: string, sep: char): (parts: seq<string>)
    ensures |parts| == CountChar(s, sep) + 1
    ensures forall i :: 0 <= i < |parts| ==> sep !in parts[i]
    ensures Join(parts, sep) == s
    decreases |s|
  {
    if s == [] then [[]]
    else
      var rest := Split(s[1..], sep);
      if s[0] == sep then
        assert ([[]] + rest)[1..] == rest;
        [[]] + rest
      else
        var parts := [[s[0]] + rest[0]] + rest[1..];
        assert parts[1..] == rest[1..];
        assert |rest| > 1 ==> Join(rest, sep) == rest[0] + [sep] + Join(rest[1..], sep);
        assert [s[0]] + s[1..] == s;
        parts
  }

  /** Splitting undoes joining when no part holds the separator. */
  lemma {:induction false} SplitJoin(parts: seq<string>, sep: char)
    requires |parts| >= 1
    requires forall i :: 0 <= i < |parts| ==> sep !in parts[i]
    ensures Split(Join(parts, sep), sep) == parts
    decreases |parts|, |parts[0]|
  {
    var p0 := parts[0];
    if |parts| == 1 {
      if p0 != [] {
        assert p0[1..] == Join([p0[1..]], sep);
        SplitJoin([p0[1..]], sep);
        assert p0 == [p0[0]] + p0[1..];
      }
    } else {
      var s := Join(parts, sep);
      if p0 == [] {
        assert s == [sep] + Join(parts[1..], sep);
        assert s[1..] == Join(parts[1..], sep);
        SplitJoin(parts[1..], sep);
        assert parts == [[]] + parts[1..];
      } else {
        var parts' := [p0[1..]] + parts[1..];
        assert parts'[1..] == parts[1..];
        assert Join(parts', sep) == p0[1..] + [sep] + Join(parts[1..], sep);
        assert s[1..] == Join(parts', sep);
        assert s[0] == p0[0];
        SplitJoin(parts', sep);
        assert p0 == [p0[0]] + p0[1..];
        assert parts == [p0] + parts[1..];
      }
    }
  }

  /** A string with exactly one separator is the two pieces around it. */
  lemma {:induction false} SplitInTwo(s: string, sep: char)
    requires CountChar(s, sep) == 1
    ensures s == Split(s, sep)[0] + [sep] + Split(s, sep)[1]
  {
    var parts := Split(s, sep);
    assert |parts| == 2;
    assert parts[1..] == [parts[1]];
    assert Join(parts[1..], sep) == parts[1];
  }

  /** Two separator-free pieces joined by the separator split back into those pieces. */
  lemma {:induction false} SplitPair(a: string, b: string, sep: char)
    requires sep !in a && sep !in b
    ensures Split(a + [sep] + b, sep) == [a, b]
  {
    assert Join([a, b], sep) == a + [sep] + b by {
      assert [a, b][1..] == [b];
    }
    SplitJoin([a, b], sep);
  }

  /** `c` is an ASCII capital letter. */
  predicate IsUpper(c: char) {
    'A' <= c <= 'Z'
  }

  function LowerChar(c: char): (d: char)
    ensures !IsUpper(d)
    ensures !IsUpper(c) ==> d == c
  {
    if IsUpper(c) then (c as int + 32) as char else c
  }

  /** `s.lower()` on the ASCII letters (other characters are kept). */
  function Lower(s: string): (r: string)
    ensures |r| == |s|
    ensures forall i :: 0 <= i < |s| ==> r[i] == LowerChar(s[i])
  {
    seq(|s|, i requires 0 <= i < |s| => LowerChar(s[i]))
  }

  /** No ASCII capital letter occurs in `s`. */
  predicate IsLowerCase(s: string) {
    forall c :: c in s ==> !IsUpper(c)
  }

  lemma {:induction false} LowerIsLowerCase(s: string)
    ensures IsLowerCase(Lower(s))
  {
    var r := Lower(s);
    forall c | c in r ensures !IsUpper(c) {
      var i :| 0 <= i < |r| && r[i] == c;
    }
  }

  /** Characters Python's `str.isspace` accepts, and so `str.strip()` removes. */
  predicate IsSpace(c: char) {
    var n := c as int;
    (9 <= n <= 13) || (28 <= n <= 32) || n == 0x85 || n == 0xA0 || n == 0x1680
    || (0x2000 <= n <= 0x200A) || n == 0x2028 || n == 0x2029 || n == 0x202F
    || n == 0x205F || n == 0x3000
  }

  function TrimStart(s: string): (r: string)
    ensures |r| <= |s|
    ensures r == [] || !IsSpace(r[0])
  {
    if s != [] && IsSpace(s[0]) then TrimStart(s[1..]) else s
  }

  /** `lstrip()` removes leading whitespace only: what is left is a suffix of the string. */
  lemma {:induction false} TrimStartIsSuffix(s: string)
    ensures TrimStart(s) == s[|s| - |TrimStart(s)|..]
    ensures forall i :: 0 <= i < |s| - |TrimStart(s)| ==> IsSpace(s[i])
  {
    if s != [] && IsSpace(s[0]) {
      TrimStartIsSuffix(s[1..]);
    }
  }

  function TrimEnd(s: string): (r: string)
    ensures |r| <= |s|
    ensures r == [] || !IsSpace(r[|r| - 1])
  {
    if s != [] && IsSpace(s[|s| - 1]) then TrimEnd(s[..|s| - 1]) else s
  }

  /** `rstrip()` removes trailing whitespace only: what is left is a prefix of the string. */
  lemma {:induction false} TrimEndIsPrefix(s: string)
    ensures TrimEnd(s) == s[..|TrimEnd(s)|]
    ensures forall i :: |TrimEnd(s)| <= i < |s| ==> IsSpace(s[i])
  {
    if s != [] && IsSpace(s[|s| - 1]) {
      TrimEndIsPrefix(s[..|s| - 1]);
    }
  }

  /** `s.strip()`: the string without leading and trailing whitespace. */
  function Strip(s: string): (r: string)
    ensures r == [] || (!IsSpace(r[0]) && !IsSpace(r[|r| - 1]))
  {
    TrimEndIsPrefix(TrimStart(s));
    TrimEnd(TrimStart(s))
  }

  predicate StartsWith(s: string, prefix: string) {
    |prefix| <= |s| && s[..|prefix|] == prefix
  }

  predicate EndsWith(s: string, suffix: string) {
    |suffix| <= |s| && s[|s| - |suffix|..] == suffix
  }

  /** `s[n:]` for a non-negative `n`: empty when `n` is past the end. */
  function Drop(s: string, n: nat): string {
    if n <= |s| then s[n..] else []
  }

  /** `s[:-n]` for a positive `n`: empty when the string is shorter than `n`. */
  function DropLast(s: string, n: nat): string {
    if n <= |s| then s[..|s| - n] else []
  }

  /** `s.rfind(c)`: the highest index holding `c`, or -1. */
  function RFind(s: string, c: char): (i: int)
    ensures -1 <= i < |s|
    ensures i >= 0 ==> s[i] == c && c !in s[i + 1..]
    ensures i < 0 ==> c !in s
  {
    if s == [] then -1
    else if s[|s| - 1] == c then |s| - 1
    else
      var i := RFind(s[..|s| - 1], c);
      assert s == s[..|s| - 1] + [s[|s| - 1]];
      assert i >= 0 ==> s[i + 1..] == s[..|s| - 1][i + 1..] + [s[|s| - 1]];
      i
  }

  /** `os.path.join(a, b)` on POSIX: an absolute `b` wins, otherwise one `/` separates them. */
  function PathJoin(a: string, b: string): (r: string)
    ensures StartsWith(b, "/") ==> r == b
    ensures !StartsWith(b, "/") ==> StartsWith(r, a) && EndsWith(r, b) && |a| + |b| <= |r| <= |a| + |b| + 1
  {
    if StartsWith(b, "/") then b
    else if a == [] || EndsWith(a, "/") then a + b
    else a + "/" + b
  }

  /** `int(x)` for a Python float: truncation toward zero. */
  function Truncate(x: real): (n: int)
    ensures 0.0 <= x ==> n as real <= x < n as real + 1.0
    ensures x < 0.0 ==> n as real - 1.0 < x <= n as real
  {
    if x >= 0.0 then x.Floor else -((-x).Floor)
  }
}
