/** The ILIKE operator of PostgreSQL (section 9.7.1 of its documentation), on ASCII letters. */
module Ilike {

  function Fold(c: char): char {
    if 'A' <= c <= 'Z' then (c as int + 32) as char else c
  }

  predicate SameLetter(a: char, b: char) {
    Fold(a) == Fold(b)
  }

  /** % matches any text, _ any one character, and a backslash takes the next character literally. */
  predicate Matches(s: string, p: string)
    decreases |s| + |p|
  {
    if p == "" then s == ""
    else if p[0] == '%' then Matches(s, p[1..]) || (s != "" && Matches(s[1..], p))
    else if s == "" then false
    else if p[0] == '_' then Matches(s[1..], p[1..])
    else if p[0] == '\\' then |p| > 1 && SameLetter(s[0], p[1]) && Matches(s[1..], p[2..])
    else SameLetter(s[0], p[0]) && Matches(s[1..], p[1..])
  }

  /** Letters that differ only in ASCII case are alike, and no other two characters are. */
  lemma LettersAlike(a: char, b: char)
    ensures SameLetter(a, b) <==>
            || a == b
            || ('A' <= a <= 'Z' && b as int == a as int + 32)
            || ('A' <= b <= 'Z' && a as int == b as int + 32)
  {
  }

  /** What the special characters and the others stand for. */
  lemma {:induction false} WildcardsMean(s: string, c: char, p: string)
    ensures Matches(s, "_" + p) <==> s != "" && Matches(s[1..], p)
    ensures Matches(s, "%" + p) <==> exists i | 0 <= i <= |s| :: Matches(s[i..], p)
    ensures Matches(s, ['\\', c] + p) <==> s != "" && SameLetter(s[0], c) && Matches(s[1..], p)
    ensures !Special(c) ==> (Matches(s, [c] + p) <==> s != "" && SameLetter(s[0], c) && Matches(s[1..], p))
    ensures Matches(s, "") <==> s == ""
  {
    PercentMeans(s, p);
    OneCharacter(s, c, p);
  }

  lemma {:induction false} OneCharacter(s: string, c: char, p: string)
    ensures Matches(s, "_" + p) <==> s != "" && Matches(s[1..], p)
    ensures Matches(s, ['\\', c] + p) <==> s != "" && SameLetter(s[0], c) && Matches(s[1..], p)
    ensures !Special(c) ==> (Matches(s, [c] + p) <==> s != "" && SameLetter(s[0], c) && Matches(s[1..], p))
  {
    assert ("_" + p)[1..] == p && (['\\', c] + p)[2..] == p && ([c] + p)[1..] == p;
  }

  lemma {:induction false} PercentMeans(s: string, p: string)
    ensures Matches(s, "%" + p) <==> exists i | 0 <= i <= |s| :: Matches(s[i..], p)
    decreases |s|
  {
    var q := "%" + p;
    assert q != "" && q[0] == '%' && q[1..] == p;
    assert s[0..] == s;
    if s != "" {
      var rest := s[1..];
      PercentMeans(rest, p);
      assert forall i | 0 <= i < |s| :: rest[i..] == s[i + 1..];
      assert (exists i | 0 <= i <= |rest| :: Matches(rest[i..], p)) <==> (exists i | 0 < i <= |s| :: Matches(s[i..], p)) by {
        ShiftedMatches(s, p);
      }
    }
  }

  lemma ShiftedMatches(s: string, p: string)
    requires s != ""
    ensures (exists i | 0 <= i <= |s[1..]| :: Matches(s[1..][i..], p)) <==> (exists i | 0 < i <= |s| :: Matches(s[i..], p))
  {
    if i :| 0 <= i <= |s[1..]| && Matches(s[1..][i..], p) {
      assert s[1..][i..] == s[i + 1..];
    }
    if i :| 0 < i <= |s| && Matches(s[i..], p) {
      assert s[1..][i - 1..] == s[i..];
    }
  }

  /** The pattern a filter value is wrapped into. */
  function Pattern(value: string): string {
    "%" + value + "%"
  }

  predicate Special(c: char) {
    c == '%' || c == '_' || c == '\\'
  }

  predicate Plain(v: string) {
    forall i | 0 <= i < |v| :: !Special(v[i])
  }

  predicate StartsWith(s: string, v: string) {
    |v| <= |s| && forall i | 0 <= i < |v| :: SameLetter(s[i], v[i])
  }

  /** s contains v, ignoring case. */
  predicate Contains(s: string, v: string) {
    exists i | 0 <= i <= |s| :: StartsWith(s[i..], v)
  }

  lemma {:induction false} PercentMatchesAll(s: string)
    ensures Matches(s, "%")
  {
    if s != "" {
      PercentMatchesAll(s[1..]);
    }
  }

  lemma {:induction false} PrefixMatches(s: string, v: string)
    requires Plain(v)
    ensures Matches(s, v + "%") <==> StartsWith(s, v)
    decreases |v|
  {
    if v == "" {
      assert v + "%" == "%";
      PercentMatchesAll(s);
    } else {
      assert (v + "%")[0] == v[0] && !Special(v[0]) && (v + "%")[1..] == v[1..] + "%";
      if s != "" {
        PrefixMatches(s[1..], v[1..]);
        assert StartsWith(s, v) <==> SameLetter(s[0], v[0]) && StartsWith(s[1..], v[1..]) by {
          assert forall i | 0 < i < |v| && i - 1 < |s[1..]| :: s[i] == s[1..][i - 1] && v[i] == v[1..][i - 1];
        }
      }
    }
  }

  /** A value free of wildcards finds exactly the fields that contain it. */
  lemma {:induction false} SubstringSearch(s: string, v: string)
    requires Plain(v)
    ensures Matches(s, Pattern(v)) <==> Contains(s, v)
    decreases |s|
  {
    assert Pattern(v)[1..] == v + "%";
    PrefixMatches(s, v);
    assert s[0..] == s;
    if s == "" {
      assert Contains(s, v) ==> StartsWith(s[0..], v);
    } else {
      SubstringSearch(s[1..], v);
      assert forall i | 0 <= i < |s| :: s[1..][i..] == s[i + 1..];
      if Contains(s, v) && !StartsWith(s, v) {
        var i :| 0 <= i <= |s| && StartsWith(s[i..], v);
        assert s[1..][i - 1..] == s[i..];
      }
    }
  }

  // ---- And no other value does -----------------------------------------------------------------

  /** A text that the pattern of v accepts: wildcards dropped or filled in, escapes resolved. */
  function Witness(v: string): (s: string)
    ensures |s| <= |v|
  {
    if v == "" then ""
    else if v[0] == '%' then Witness(v[1..])
    else if v[0] == '_' then "x" + Witness(v[1..])
    else if v[0] == '\\' then if |v| == 1 then "%" else [v[1]] + Witness(v[2..])
    else [v[0]] + Witness(v[1..])
  }

  lemma {:induction false} WitnessMatches(v: string)
    ensures Matches(Witness(v), v + "%")
    decreases |v|
  {
    if v == "" {
      PercentMatchesAll("");
      assert v + "%" == "%";
    } else {
      assert (v + "%")[1..] == v[1..] + "%";
      if v[0] == '\\' && |v| == 1 {
        assert (v + "%")[2..] == "" && Matches("%"[1..], "");
      } else if v[0] == '\\' {
        assert (v + "%")[2..] == v[2..] + "%";
        WitnessMatches(v[2..]);
        assert Witness(v)[1..] == Witness(v[2..]);
      } else {
        WitnessMatches(v[1..]);
        assert v[0] != '%' ==> Witness(v)[1..] == Witness(v[1..]);
      }
    }
  }

  lemma {:induction false} WitnessDiffers(v: string)
    requires StartsWith(Witness(v), v)
    ensures Plain(v)
    decreases |v|
  {
    if v != "" {
      assert SameLetter(Witness(v)[0], v[0]);
      assert !Special(v[0]);
      forall i | 0 <= i < |v[1..]| ensures SameLetter(Witness(v[1..])[i], v[1..][i]) {
        assert Witness(v)[i + 1] == Witness(v[1..])[i];
      }
      WitnessDiffers(v[1..]);
      assert forall i | 0 < i < |v| :: v[i] == v[1..][i - 1];
    }
  }

  /** Filtering is substring search for a value exactly when the value has no %, _ or backslash. */
  lemma SubstringSearchExactly(v: string)
    ensures Plain(v) <==> forall s: string :: Matches(s, Pattern(v)) <==> Contains(s, v)
  {
    if Plain(v) {
      forall s: string ensures Matches(s, Pattern(v)) <==> Contains(s, v) {
        SubstringSearch(s, v);
      }
    } else {
      var s := Witness(v);
      WitnessMatches(v);
      assert Pattern(v)[1..] == v + "%";
      assert Matches(s, Pattern(v));
      if Contains(s, v) {
        var i :| 0 <= i <= |s| && StartsWith(s[i..], v);
        assert s[i..] == s;
        WitnessDiffers(v);
      }
    }
  }
}
