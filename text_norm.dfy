/**
 * The `replace` chains the tag normalisers of the analyser, the maintenance
 * script and the one-off normalisation script are built from.
 */
module TextNorm {
  import opened PyStr

  /** `s` has no two spaces in a row (`'  ' not in s`). */
  predicate NoDoubleSpace(s: string) {
    forall i :: 0 <= i < |s| - 1 ==> !(s[i] == ' ' && s[i + 1] == ' ')
  }

  lemma {:induction false} NoDoubleSpaceContains(s: string)
    ensures NoDoubleSpace(s) <==> !Contains(s, "  ")
  {
    if !NoDoubleSpace(s) {
      var i :| 0 <= i < |s| - 1 && s[i] == ' ' && s[i + 1] == ' ';
      assert s[i..i + 2] == "  ";
      assert OccursAt(s, "  ", i);
    } else {
      forall i | 0 <= i && i + 2 <= |s| ensures !OccursAt(s, "  ", i) {
        assert s[i..i + 2] == [s[i], s[i + 1]];
      }
    }
  }

  /** `s` holds no character of `cs`. */
  predicate NoneOf(s: string, cs: set<char>) {
    forall c :: c in s ==> c !in cs
  }

  /** The punctuation every normaliser deletes. */
  const Deleted: set<char> := {'.', '(', ')'}

  /**
   * The common chain: lower-case, delete `.`, `(` and `)`, and spell ` & ` as ` and `.
   */
  function Clean(s: string): (r: string)
    ensures IsLowerCase(r)
    ensures NoneOf(r, Deleted)
  {
    var l := Lower(s);
    LowerIsLowerCase(s);
    var a := Replace(l, ".", "");
    var b := Replace(a, "(", "");
    var c := Replace(b, ")", "");
    ReplaceRemovesChar(l, '.', "");
    ReplaceRemovesChar(a, '(', "");
    ReplaceRemovesChar(b, ')', "");
    ReplaceChars(l, ".", "");
    ReplaceChars(a, "(", "");
    ReplaceChars(b, ")", "");
    ReplaceChars(c, " & ", " and ");
    Replace(c, " & ", " and ")
  }

  /** A string that is already lower-case, without the deleted punctuation and without ` & `, is left as it is. */
  lemma {:induction false} CleanFixesCleanStrings(s: string)
    requires IsLowerCase(s) && NoneOf(s, Deleted) && !Contains(s, " & ")
    ensures Clean(s) == s
  {
    assert Lower(s) == s;
    NotContainsChar(s, '.');
    NotContainsChar(s, '(');
    NotContainsChar(s, ')');
    ReplaceAbsent(s, ".", "");
    ReplaceAbsent(s, "(", "");
    ReplaceAbsent(s, ")", "");
    ReplaceAbsent(s, " & ", " and ");
  }

  lemma {:induction false} NotContainsChar(s: string, c: char)
    requires c !in s
    ensures !Contains(s, [c])
  {
    forall j | 0 <= j && j + 1 <= |s| ensures !OccursAt(s, [c], j) {
      assert s[j..j + 1] == [s[j]];
    }
  }

  /** The featuring markers: ` feat `, ` ft ` and ` featuring `, each replaced by one space, in that order. */
  function DropFeaturing(s: string): (r: string)
    ensures |r| <= |s|
    ensures forall c :: c in r ==> c in s || c == ' '
    ensures !Contains(s, " feat ") && !Contains(s, " ft ") && !Contains(s, " featuring ") ==> r == s
  {
    var a := Replace(s, " feat ", " ");
    var b := Replace(a, " ft ", " ");
    ReplaceChars(s, " feat ", " ");
    ReplaceChars(a, " ft ", " ");
    ReplaceChars(b, " featuring ", " ");
    ReplaceAbsentWhen(s, " feat ", " ");
    ReplaceAbsentWhen(a, " ft ", " ");
    ReplaceAbsentWhen(b, " featuring ", " ");
    Replace(b, " featuring ", " ")
  }

  /** Replacing a pattern that does not occur changes nothing. */
  lemma {:induction false} ReplaceAbsentWhen(s: string, p: string, r: string)
    requires |p| > 0
    ensures !Contains(s, p) ==> Replace(s, p, r) == s
  {
    if !Contains(s, p) {
      ReplaceAbsent(s, p, r);
    }
  }

  /** Dropping the featuring markers keeps a string lower-case and free of the deleted punctuation. */
  lemma {:induction false} DropFeaturingKeepsClean(s: string)
    requires IsLowerCase(s) && NoneOf(s, Deleted)
    ensures IsLowerCase(DropFeaturing(s)) && NoneOf(DropFeaturing(s), Deleted)
  {
  }

  /**
   * Replacing a space-delimited word by one space never makes two spaces meet;
   * and the result starts with a space only when the input does.
   */
  lemma {:induction false} ReplaceWordKeepsSingleSpaces(s: string, p: string)
    requires |p| >= 2 && p[0] == ' ' && p[|p| - 1] == ' '
    requires NoDoubleSpace(s)
    ensures NoDoubleSpace(Replace(s, p, " "))
    ensures Replace(s, p, " ") != [] && Replace(s, p, " ")[0] == ' ' ==> s != [] && s[0] == ' '
    decreases |s|
  {
    if |s| < |p| {
    } else if s[..|p|] == p {
      var rest := s[|p|..];
      ReplaceWordKeepsSingleSpaces(rest, p);
      var r := Replace(rest, p, " ");
      assert s[|p| - 1] == ' ';
      assert rest != [] ==> rest[0] == s[|p|] != ' ';
      assert Replace(s, p, " ") == " " + r;
    } else {
      var rest := s[1..];
      ReplaceWordKeepsSingleSpaces(rest, p);
      var r := Replace(rest, p, " ");
      assert rest != [] ==> rest[0] == s[1];
      assert Replace(s, p, " ") == [s[0]] + r;
    }
  }

  /** Dropping the featuring markers never makes two spaces meet. */
  lemma {:induction false} DropFeaturingKeepsSingleSpaces(s: string)
    requires NoDoubleSpace(s)
    ensures NoDoubleSpace(DropFeaturing(s))
  {
    ReplaceWordKeepsSingleSpaces(s, " feat ");
    ReplaceWordKeepsSingleSpaces(Replace(s, " feat ", " "), " ft ");
    ReplaceWordKeepsSingleSpaces(Replace(Replace(s, " feat ", " "), " ft ", " "), " featuring ");
  }

  /** The collapsing loop's effect: `'  '` is replaced by `' '` until none is left. */
  function Collapse(s: string): (r: string)
    ensures NoDoubleSpace(r)
    ensures |r| <= |s|
    ensures forall c :: c in r ==> c in s
    ensures NoDoubleSpace(s) ==> r == s
    decreases |s|
  {
    NoDoubleSpaceContains(s);
    if Contains(s, "  ") then
      ReplaceShrinks(s, "  ", " ");
      var k := Find(s, "  ");
      assert s[k..k + 2][0] == s[k] == ' ';
      ReplaceChars(s, "  ", " ");
      Collapse(Replace(s, "  ", " "))
    else s
  }

  // ------------------------------------------------ reference definitions

  /** `s` with every character of `cs` left out, the others kept in order. */
  function DropChars(s: string, cs: set<char>): (r: string)
    ensures NoneOf(r, cs)
    ensures |r| <= |s|
    ensures forall c :: c in r ==> c in s
    decreases |s|
  {
    if s == [] then []
    else
      var rest := DropChars(s[1..], cs);
      (if s[0] in cs then [] else [s[0]]) + rest
  }

  /** Dropping characters from a concatenation drops them from each part. */
  lemma {:induction false} DropCharsAppend(a: string, b: string, cs: set<char>)
    ensures DropChars(a + b, cs) == DropChars(a, cs) + DropChars(b, cs)
    decreases |a|
  {
    if a != [] {
      assert (a + b)[1..] == a[1..] + b;
      DropCharsAppend(a[1..], b, cs);
    } else {
      assert a + b == b;
    }
  }

  /** Dropping one set of characters and then another drops their union. */
  lemma {:induction false} DropCharsTwice(s: string, a: set<char>, b: set<char>)
    ensures DropChars(DropChars(s, a), b) == DropChars(s, a + b)
    decreases |s|
  {
    if s != [] {
      DropCharsTwice(s[1..], a, b);
      var head := if s[0] in a then [] else [s[0]];
      DropCharsAppend(head, DropChars(s[1..], a), b);
      if s[0] !in a {
        assert [s[0]][1..] == [];
      }
    }
  }

  /** A string holding none of `cs` loses nothing. */
  lemma {:induction false} DropCharsNone(s: string, cs: set<char>)
    requires NoneOf(s, cs)
    ensures DropChars(s, cs) == s
    decreases |s|
  {
    if s != [] {
      assert s[0] in s;
      assert forall c :: c in s[1..] ==> c in s;
      DropCharsNone(s[1..], cs);
      assert [s[0]] + s[1..] == s;
    }
  }

  /** `s.replace(c, '')` for a single character `c` drops exactly that character. */
  lemma {:induction false} ReplaceCharDrops(s: string, c: char)
    ensures Replace(s, [c], "") == DropChars(s, {c})
    decreases |s|
  {
    if s != [] {
      ReplaceCharDrops(s[1..], c);
      assert s[..1] == [s[0]];
    }
  }

  /** The text the common chain produces before ` & ` is spelt out: lower-cased, without `.`, `(` and `)`. */
  function LowerDropped(s: string): (r: string)
    ensures |r| <= |s|
  {
    DropChars(Lower(s), Deleted)
  }

  /** Lower-casing a concatenation lower-cases each part. */
  lemma {:induction false} LowerAppend(a: string, b: string)
    ensures Lower(a + b) == Lower(a) + Lower(b)
  {
  }

  /** `LowerDropped` distributes over concatenation. */
  lemma {:induction false} LowerDroppedAppend(a: string, b: string)
    ensures LowerDropped(a + b) == LowerDropped(a) + LowerDropped(b)
  {
    LowerAppend(a, b);
    DropCharsAppend(Lower(a), Lower(b), Deleted);
  }

  /** Lower-casing never produces a character that is not a letter unless it was there already. */
  lemma {:induction false} LowerKeepsOthers(s: string, c: char)
    requires !('a' <= c <= 'z') && c !in s
    ensures c !in Lower(s)
  {
  }

  /** `s` holds the pattern ` & ` only where it holds an ampersand. */
  lemma {:induction false} NoAmpersandNoPattern(s: string)
    requires '&' !in s
    ensures !Contains(s, " & ")
  {
    forall j | 0 <= j && j + 3 <= |s| ensures !OccursAt(s, " & ", j) {
      assert s[j..j + 3][1] == s[j + 1];
      assert s[j + 1] in s;
    }
  }

  /**
   * The common chain against its reference: lower-case, drop `.`, `(` and `)`,
   * then replace ` & ` by ` and `.
   */
  lemma {:induction false} CleanSpec(s: string)
    ensures Clean(s) == Replace(LowerDropped(s), " & ", " and ")
  {
    var l := Lower(s);
    ReplaceCharDrops(l, '.');
    ReplaceCharDrops(DropChars(l, {'.'}), '(');
    ReplaceCharDrops(DropChars(DropChars(l, {'.'}), {'('}), ')');
    DropCharsTwice(l, {'.'}, {'('});
    DropCharsTwice(l, {'.'} + {'('}, {')'});
    assert {'.'} + {'('} + {')'} == Deleted;
  }

  /** Without an ampersand the chain only lower-cases and drops the punctuation. */
  lemma {:induction false} CleanWithoutAmpersand(s: string)
    requires '&' !in s
    ensures Clean(s) == LowerDropped(s)
  {
    CleanSpec(s);
    LowerKeepsOthers(s, '&');
    NoAmpersandNoPattern(LowerDropped(s));
    ReplaceAbsent(LowerDropped(s), " & ", " and ");
  }

  /** In a name without ampersands followed by ` & `, the first ` & ` is the appended one. */
  lemma {:induction false} FindAmpersand(a: string)
    requires '&' !in a
    ensures Find(a + " & ", " & ") == |a|
  {
    var s := a + " & ";
    assert OccursAt(s, " & ", |a|) by { assert s[|a|..|a| + 3] == " & "; }
    forall j | 0 <= j < |a| ensures !OccursAt(s, " & ", j) {
      assert s[j..j + 3][1] == s[j + 1];
      if j + 1 < |a| {
        assert s[j + 1] == a[j + 1];
      }
    }
    FindAt(s, " & ", |a|);
  }

  /** Lower-casing and dropping the punctuation keep the ` & ` between two names. */
  lemma {:induction false} LowerDroppedKeepsAmpersand(x: string, y: string)
    ensures LowerDropped(x + " & " + y) == LowerDropped(x) + " & " + LowerDropped(y)
  {
    LowerDroppedAppend(x + " & ", y);
    LowerDroppedAppend(x, " & ");
    assert LowerDropped(" & ") == " & ";
  }

  /** ` & ` between two names without ampersands is spelt ` and `. */
  lemma {:induction false} CleanSpellsAnd(x: string, y: string)
    requires '&' !in x && '&' !in y
    ensures Clean(x + " & " + y) == LowerDropped(x) + " and " + LowerDropped(y)
  {
    CleanSpec(x + " & " + y);
    LowerDroppedKeepsAmpersand(x, y);
    var a := LowerDropped(x);
    var b := LowerDropped(y);
    LowerKeepsOthers(x, '&');
    LowerKeepsOthers(y, '&');
    FindAmpersand(a);
    ReplacePrefix(a, " & ", " and ", b);
    NoAmpersandNoPattern(b);
    ReplaceAbsent(b, " & ", " and ");
  }

  /** `p` starts and ends with a space. */
  predicate SpaceDelimited(p: string) {
    |p| >= 2 && p[0] == ' ' && p[|p| - 1] == ' '
  }

  /** Every space in `s` is at index `a` or at index `b`. */
  predicate SpacesOnlyAt(s: string, a: int, b: int) {
    forall i :: 0 <= i < |s| && s[i] == ' ' ==> i == a || i == b
  }

  /** A space-delimited pattern can only occur from the first of two spaces to the second. */
  lemma {:induction false} DelimitedOccurrence(s: string, p: string, a: int, b: int, j: int)
    requires SpaceDelimited(p) && SpacesOnlyAt(s, a, b) && a <= b && OccursAt(s, p, j)
    ensures j == a && j + |p| - 1 == b
  {
    assert s[j..j + |p|][0] == s[j];
    assert s[j..j + |p|][|p| - 1] == s[j + |p| - 1];
  }

  /** A string without spaces holds no space-delimited pattern. */
  lemma {:induction false} SpacelessAbsent(s: string, p: string)
    requires SpaceDelimited(p) && ' ' !in s
    ensures !Contains(s, p)
  {
  }

  /**
   * Replacing a space-delimited pattern by one space in `x + m + y`, where the
   * words `x` and `y` have no spaces and `m` has spaces only at its ends.
   */
  lemma {:induction false} ReplaceBetweenWords(x: string, m: string, y: string, p: string)
    requires ' ' !in x && ' ' !in y
    requires SpaceDelimited(m) && ' ' !in m[1..|m| - 1] && SpaceDelimited(p)
    ensures Replace(x + m + y, p, " ") == if p == m then x + " " + y else x + m + y
  {
    var s := x + m + y;
    assert SpacesOnlyAt(s, |x|, |x| + |m| - 1);
    if p == m {
      assert OccursAt(s, p, |x|) by { assert s[|x|..|x| + |m|] == m; }
      forall j | 0 <= j < |x| ensures !OccursAt(s, p, j) {
        if OccursAt(s, p, j) {
          DelimitedOccurrence(s, p, |x|, |x| + |m| - 1, j);
        }
      }
      FindAt(s, p, |x|);
      ReplaceAtFirst(s, p, " ", |x|);
      assert s[..|x|] == x;
      assert s[|x| + |m|..] == y;
      SpacelessAbsent(y, p);
      ReplaceAbsent(y, p, " ");
    } else {
      if Contains(s, p) {
        var j := Find(s, p);
        DelimitedOccurrence(s, p, |x|, |x| + |m| - 1, j);
      }
      ReplaceAbsent(s, p, " ");
    }
  }

  /** Two words joined by one space hold no space-delimited pattern. */
  lemma {:induction false} ReplaceOneSpace(x: string, y: string, p: string)
    requires ' ' !in x && ' ' !in y && SpaceDelimited(p)
    ensures Replace(x + " " + y, p, " ") == x + " " + y
  {
    var s := x + " " + y;
    assert SpacesOnlyAt(s, |x|, |x|);
    if Contains(s, p) {
      DelimitedOccurrence(s, p, |x|, |x|, Find(s, p));
    }
    ReplaceAbsent(s, p, " ");
  }

  /** A featuring marker between two words becomes one space. */
  lemma {:induction false} DropFeaturingWord(x: string, m: string, y: string)
    requires ' ' !in x && ' ' !in y
    requires m == " feat " || m == " ft " || m == " featuring "
    ensures DropFeaturing(x + m + y) == x + " " + y
  {
    assert ' ' !in m[1..|m| - 1];
    ReplaceBetweenWords(x, m, y, " feat ");
    ReplaceBetweenWords(x, m, y, " ft ");
    ReplaceBetweenWords(x, m, y, " featuring ");
    ReplaceOneSpace(x, y, " ft ");
    ReplaceOneSpace(x, y, " featuring ");
  }

  /** Text that is already lower-case and holds none of the deleted punctuation is its own `LowerDropped`. */
  lemma {:induction false} LowerDroppedFixes(m: string)
    requires IsLowerCase(m) && NoneOf(m, Deleted)
    ensures LowerDropped(m) == m
  {
    assert Lower(m) == m by {
      forall i | 0 <= i < |m| ensures Lower(m)[i] == m[i] {
        assert m[i] in m;
      }
    }
    DropCharsNone(m, Deleted);
  }

  /** Lower-casing and dropping the punctuation add no space and no ampersand. */
  lemma {:induction false} LowerDroppedAddsNothing(x: string)
    ensures ' ' !in x ==> ' ' !in LowerDropped(x)
    ensures '&' !in x ==> '&' !in LowerDropped(x)
  {
    if ' ' !in x {
      LowerKeepsOthers(x, ' ');
    }
    if '&' !in x {
      LowerKeepsOthers(x, '&');
    }
  }

  /** Around a separator that the chain keeps, two names without ampersands are cleaned one by one. */
  lemma {:induction false} CleanAround(x: string, m: string, y: string)
    requires '&' !in x && '&' !in m && '&' !in y
    requires IsLowerCase(m) && NoneOf(m, Deleted)
    ensures Clean(x + m + y) == LowerDropped(x) + m + LowerDropped(y)
  {
    assert '&' !in x + m + y;
    CleanWithoutAmpersand(x + m + y);
    LowerDroppedAppend(x + m, y);
    LowerDroppedAppend(x, m);
    LowerDroppedFixes(m);
  }

  /** Two words around a featuring marker hold no double space. */
  lemma {:induction false} MarkerSingleSpaced(a: string, m: string, b: string)
    requires ' ' !in a && ' ' !in b
    requires m == " feat " || m == " ft " || m == " featuring "
    ensures NoDoubleSpace(a + m + b)
  {
    var s := a + m + b;
    assert ' ' !in m[1..|m| - 1];
    forall i | 0 <= i < |s| - 1 ensures !(s[i] == ' ' && s[i + 1] == ' ') {
      if i < |a| {
        assert s[i] == a[i];
      } else if i < |a| + |m| - 1 {
        assert s[i + 1] == m[i + 1 - |a|];
        if i + 1 < |a| + |m| - 1 {
          assert s[i + 1] == m[1..|m| - 1][i - |a|];
        }
      } else {
        assert s[i + 1] == b[i + 1 - |a| - |m|];
      }
    }
  }

  /**
   * The artist chain on `x`, a featuring marker and `y`, for single words without
   * ampersands: the words are cleaned and the marker becomes one space.
   */
  lemma {:induction false} CleanThenDropFeaturing(x: string, m: string, y: string)
    requires ' ' !in x && ' ' !in y && '&' !in x && '&' !in y
    requires m == " feat " || m == " ft " || m == " featuring "
    ensures Clean(x + m + y) == LowerDropped(x) + m + LowerDropped(y)
    ensures NoDoubleSpace(Clean(x + m + y))
    ensures DropFeaturing(Clean(x + m + y)) == LowerDropped(x) + " " + LowerDropped(y)
  {
    assert IsLowerCase(m) && NoneOf(m, Deleted);
    CleanAround(x, m, y);
    LowerDroppedAddsNothing(x);
    LowerDroppedAddsNothing(y);
    MarkerSingleSpaced(LowerDropped(x), m, LowerDropped(y));
    DropFeaturingWord(LowerDropped(x), m, LowerDropped(y));
  }

  /** The reference for the collapsing loop: a space followed by another space is dropped. */
  function Squeeze(s: string): (r: string)
    ensures |r| <= |s|
    decreases |s|
  {
    if |s| < 2 then s
    else if s[0] == ' ' && s[1] == ' ' then Squeeze(s[1..])
    else [s[0]] + Squeeze(s[1..])
  }

  /** A string without double spaces is its own squeeze. */
  lemma {:induction false} SqueezeSingleSpaced(s: string)
    requires NoDoubleSpace(s)
    ensures Squeeze(s) == s
    decreases |s|
  {
    if |s| >= 2 {
      SqueezeSingleSpaced(s[1..]);
      assert [s[0]] + s[1..] == s;
    }
  }

  /** One round of `replace('  ', ' ')` does not change the squeeze, nor the first character. */
  lemma {:induction false} SqueezeReplace(s: string)
    ensures Squeeze(Replace(s, "  ", " ")) == Squeeze(s)
    ensures |Replace(s, "  ", " ")| > 0 <==> |s| > 0
    ensures |s| > 0 ==> Replace(s, "  ", " ")[0] == s[0]
    decreases |s|
  {
    if |s| >= 2 {
      if s[..2] == "  " {
        var t := s[2..];
        SqueezeReplace(t);
        var u := Replace(t, "  ", " ");
        assert Replace(s, "  ", " ") == " " + u;
        assert s[1..] == " " + t;
        assert (" " + t)[1..] == t;
        assert (" " + u)[1..] == u;
      } else {
        var t := s[1..];
        SqueezeReplace(t);
        var u := Replace(t, "  ", " ");
        assert Replace(s, "  ", " ") == [s[0]] + u;
        assert ([s[0]] + u)[1..] == u;
      }
    }
  }

  /** The collapsing loop against its reference: every space that follows a space is dropped. */
  lemma {:induction false} CollapseSqueezes(s: string)
    ensures Collapse(s) == Squeeze(s)
    decreases |s|
  {
    NoDoubleSpaceContains(s);
    if Contains(s, "  ") {
      ReplaceShrinks(s, "  ", " ");
      CollapseSqueezes(Replace(s, "  ", " "));
      SqueezeReplace(s);
    } else {
      SqueezeSingleSpaced(s);
    }
  }

  /** The first double space of `x + "  "` is the appended one. */
  lemma {:induction false} FindGap(x: string)
    requires NoDoubleSpace(x) && (x == [] || x[|x| - 1] != ' ')
    ensures Find(x + "  ", "  ") == |x|
  {
    var s := x + "  ";
    assert OccursAt(s, "  ", |x|) by { assert s[|x|..|x| + 2] == "  "; }
    forall j | 0 <= j < |x| ensures !OccursAt(s, "  ", j) {
      assert s[j..j + 2][0] == s[j] && s[j..j + 2][1] == s[j + 1];
      assert s[j] == x[j];
      if j + 1 < |x| {
        assert s[j + 1] == x[j + 1];
      }
    }
    FindAt(s, "  ", |x|);
  }

  /** Two single-spaced words that do not touch a space stay single-spaced when joined by one. */
  lemma {:induction false} JoinSingleSpaced(x: string, y: string)
    requires NoDoubleSpace(x) && NoDoubleSpace(y)
    requires (x == [] || x[|x| - 1] != ' ') && (y == [] || y[0] != ' ')
    ensures NoDoubleSpace(x + " " + y)
  {
    var t := x + " " + y;
    forall i | 0 <= i < |t| - 1 ensures !(t[i] == ' ' && t[i + 1] == ' ') {
      if i + 1 < |x| {
        assert t[i] == x[i] && t[i + 1] == x[i + 1];
      } else if i > |x| {
        assert t[i] == y[i - |x| - 1] && t[i + 1] == y[i - |x|];
      }
    }
  }

  /** A run of two spaces between words that are single-spaced and do not touch it collapses to one. */
  lemma {:induction false} CollapseOneGap(x: string, y: string)
    requires NoDoubleSpace(x) && NoDoubleSpace(y)
    requires (x == [] || x[|x| - 1] != ' ') && (y == [] || y[0] != ' ')
    ensures Collapse(x + "  " + y) == x + " " + y
  {
    var s := x + "  " + y;
    ReplaceGap(x, y);
    assert s[|x|] == ' ' && s[|x| + 1] == ' ';
    JoinSingleSpaced(x, y);
    NoDoubleSpaceContains(s);
    CollapseStep(s);
  }

  /** One round of the collapsing loop on the gap. */
  lemma {:induction false} ReplaceGap(x: string, y: string)
    requires NoDoubleSpace(x) && NoDoubleSpace(y)
    requires x == [] || x[|x| - 1] != ' '
    ensures Replace(x + "  " + y, "  ", " ") == x + " " + y
  {
    FindGap(x);
    ReplacePrefix(x, "  ", " ", y);
    NoDoubleSpaceContains(y);
    ReplaceAbsent(y, "  ", " ");
  }

  /** The collapsing loop runs another round while a double space is left. */
  lemma {:induction false} CollapseStep(s: string)
    requires Contains(s, "  ")
    ensures Collapse(s) == Collapse(Replace(s, "  ", " "))
  {
  }
}
