/** SQL `ILIKE` as the search endpoint issues it (`column ILIKE '%q%'`),
    on an SQLite table: `lower(column) LIKE lower(pattern)`, where SQLite's
    `lower` and its `LIKE` both fold only the ASCII letters, `%` matches any
    run of characters, `_` any one character, and no escape character is
    set. */
module SqlLike {

  /** ASCII case folding. */
  function Fold(c: char): char
  {
    if 'A' <= c <= 'Z' then (c as int - 'A' as int + 'a' as int) as char else c
  }

  /** `s LIKE p`, case-insensitive for ASCII. Lower-casing both sides first,
      as ILIKE does, makes no difference, because LIKE already compares
      folded characters. */
  function Like(s: string, p: string): bool
    decreases |p| + |s|
  {
    if p == [] then s == []
    else if p[0] == '%' then Like(s, p[1..]) || (s != [] && Like(s[1..], p))
    else s != [] && (p[0] == '_' || Fold(p[0]) == Fold(s[0])) && Like(s[1..], p[1..])
  }

  /** `a` and `b` are equal up to ASCII case. */
  predicate EqualsFolded(a: string, b: string)
  {
    |a| == |b| && forall i :: 0 <= i < |a| ==> Fold(a[i]) == Fold(b[i])
  }

  /** `q` occurs in `s` at position `i`, up to ASCII case. */
  predicate OccursAt(s: string, q: string, i: int)
  {
    0 <= i && i + |q| <= |s| && EqualsFolded(s[i..i + |q|], q)
  }

  /** `q` occurs in `s` as a substring, up to ASCII case. */
  ghost predicate ContainsFolded(s: string, q: string)
  {
    exists i :: OccursAt(s, q, i)
  }

  /** `q` holds neither of LIKE's wildcard characters. */
  predicate NoWildcards(q: string)
  {
    forall i :: 0 <= i < |q| ==> q[i] != '%' && q[i] != '_'
  }

  /** The pattern ILIKE is given for a search for `q`. */
  function ContainsPattern(q: string): (p: string)
    ensures |p| == |q| + 2 && p[0] == '%' && p[|p| - 1] == '%'
    ensures p[1..|p| - 1] == q
  {
    "%" + q + "%"
  }

  /** A lone `%` matches every string, the empty one included. */
  lemma {:induction false} PercentMatchesAll(s: string)
    ensures Like(s, "%")
    decreases |s|
  {
    assert "%"[1..] == [];
    if s != [] {
      PercentMatchesAll(s[1..]);
    }
  }

  /** For a pattern `q` without wildcards, `s LIKE q%` says that `s` starts
      with `q` up to case. */
  lemma {:induction false} PrefixPattern(s: string, q: string)
    requires NoWildcards(q)
    ensures Like(s, q + "%") <==> |q| <= |s| && EqualsFolded(s[..|q|], q)
    decreases |q|
  {
    var p := q + "%";
    if q == [] {
      assert p == "%";
      PercentMatchesAll(s);
    } else {
      assert p[0] == q[0] && p[1..] == q[1..] + "%";
      assert p[0] != '%' && p[0] != '_';
      if s == [] {
        assert !Like(s, p);
      } else {
        PrefixPattern(s[1..], q[1..]);
        if |q| <= |s| {
          var a, b := s[..|q|], s[1..][..|q| - 1];
          assert a == [s[0]] + b;
          assert EqualsFolded(a, q) <==> Fold(s[0]) == Fold(q[0]) && EqualsFolded(b, q[1..]) by {
            if Fold(s[0]) == Fold(q[0]) && EqualsFolded(b, q[1..]) {
              forall i | 0 <= i < |a|
                ensures Fold(a[i]) == Fold(q[i])
              {
                if i > 0 { assert a[i] == b[i - 1] && q[i] == q[1..][i - 1]; }
              }
            }
            if EqualsFolded(a, q) {
              assert Fold(a[0]) == Fold(q[0]);
              forall i | 0 <= i < |b|
                ensures Fold(b[i]) == Fold(q[1..][i])
              {
                assert b[i] == a[i + 1] && q[1..][i] == q[i + 1];
              }
            }
          }
        }
      }
    }
  }

  /** `s LIKE %p` says that some suffix of `s` matches `p`. */
  lemma {:induction false} LeadingPercent(s: string, p: string)
    ensures Like(s, "%" + p) <==> exists i :: 0 <= i <= |s| && Like(s[i..], p)
    decreases |s|
  {
    var pp := "%" + p;
    assert pp[0] == '%' && pp[1..] == p;
    assert s[0..] == s;
    if s != [] {
      LeadingPercent(s[1..], p);
      if Like(s, pp) && !Like(s, p) {
        assert Like(s[1..], pp);
        var i :| 0 <= i <= |s[1..]| && Like(s[1..][i..], p);
        assert s[1..][i..] == s[i + 1..];
      }
      if exists i :: 0 <= i <= |s| && Like(s[i..], p) {
        var i :| 0 <= i <= |s| && Like(s[i..], p);
        if i > 0 {
          assert s[i..] == s[1..][i - 1..];
          assert Like(s[1..], pp);
        }
      }
    }
  }

  /** Searching for `q` without wildcards is case-insensitive substring
      search: the row field `s` matches `%q%` exactly when `q` occurs in it
      up to ASCII case. */
  lemma ContainsPatternIsSubstring(s: string, q: string)
    requires NoWildcards(q)
    ensures Like(s, ContainsPattern(q)) <==> ContainsFolded(s, q)
  {
    var p := q + "%";
    assert ContainsPattern(q) == "%" + p;
    LeadingPercent(s, p);
    if Like(s, ContainsPattern(q)) {
      var i :| 0 <= i <= |s| && Like(s[i..], p);
      PrefixPattern(s[i..], q);
      assert s[i..][..|q|] == s[i..i + |q|];
      assert OccursAt(s, q, i);
    }
    if ContainsFolded(s, q) {
      var i :| OccursAt(s, q, i);
      PrefixPattern(s[i..], q);
      assert s[i..][..|q|] == s[i..i + |q|];
      assert Like(s[i..], p);
    }
  }

  /** The empty search string matches every field. */
  lemma EmptyPatternMatchesAll(s: string)
    ensures Like(s, ContainsPattern(""))
  {
    assert ContainsPattern("") == "%" + "%";
    LeadingPercent(s, "%");
    PercentMatchesAll(s);
    assert s[0..] == s;
  }
}
