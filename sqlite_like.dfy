/** SQLite's `LIKE` operator as the store and the external index use it (no `ESCAPE` clause). */
module SqlLike {
  import opened PyStr

  /**
   * `s LIKE pattern`: `%` matches any run of characters, `_` any one character,
   * and every other character matches itself, ASCII letters regardless of case.
   */
  predicate Like(s: string, pattern: string)
    decreases |s| + |pattern|
  {
    if pattern == [] then s == []
    else if pattern[0] == '%' then Like(s, pattern[1..]) || (s != [] && Like(s[1..], pattern))
    else s != [] && (pattern[0] == '_' || LowerChar(s[0]) == LowerChar(pattern[0]))
         && Like(s[1..], pattern[1..])
  }

  /** A pattern without wildcards. */
  predicate IsLiteral(pattern: string) {
    '%' !in pattern && '_' !in pattern
  }

  /** `prefix` starts `s` when ASCII case is ignored. */
  predicate PrefixIgnoringCase(prefix: string, s: string) {
    |prefix| <= |s| && forall i :: 0 <= i < |prefix| ==> LowerChar(s[i]) == LowerChar(prefix[i])
  }

  /** `LIKE '%'` matches every string. */
  lemma {:induction false} LikeAnything(s: string)
    ensures Like(s, "%")
    decreases |s|
  {
    if s != [] {
      LikeAnything(s[1..]);
    }
  }

  /** `LIKE 'val%'` for a literal `val` is a prefix test that ignores ASCII case. */
  lemma {:induction false} LikePrefix(s: string, val: string)
    requires IsLiteral(val)
    ensures Like(s, val + "%") <==> PrefixIgnoringCase(val, s)
    decreases |val|
  {
    if val == [] {
      assert val + "%" == "%";
      LikeAnything(s);
    } else {
      var pat := val + "%";
      assert pat[0] == val[0] && pat[1..] == val[1..] + "%";
      if s != [] {
        LikePrefix(s[1..], val[1..]);
        if PrefixIgnoringCase(val, s) {
          assert PrefixIgnoringCase(val[1..], s[1..]) by {
            forall i | 0 <= i < |val[1..]|
              ensures LowerChar(s[1..][i]) == LowerChar(val[1..][i])
            {
              assert LowerChar(s[i + 1]) == LowerChar(val[i + 1]);
            }
          }
        }
        if LowerChar(s[0]) == LowerChar(val[0]) && PrefixIgnoringCase(val[1..], s[1..]) {
          forall i | 0 <= i < |val| ensures LowerChar(s[i]) == LowerChar(val[i]) {
            if i > 0 {
              assert LowerChar(s[1..][i - 1]) == LowerChar(val[1..][i - 1]);
            }
          }
        }
      }
    }
  }
}
