/**
  PostgreSQL's LIKE and ILIKE, as far as the search filters use them: every search
  box wraps its text as "%text%" without escaping it.
*/
module LikePattern {
  import opened Text

  /** LIKE with the default escape character. */
  predicate LikeMatch(p: string, s: string)
    decreases |p| + |s|
  {
    if p == [] then s == []
    else if p[0] == '%' then LikeMatch(p[1..], s) || (s != [] && LikeMatch(p, s[1..]))
    else if p[0] == '_' then s != [] && LikeMatch(p[1..], s[1..])
    else if p[0] == '\\' && |p| > 1 then s != [] && s[0] == p[1] && LikeMatch(p[2..], s[1..])
    else s != [] && s[0] == p[0] && LikeMatch(p[1..], s[1..])
  }

  predicate ILikeMatch(p: string, s: string) {
    LikeMatch(ToLower(p), ToLower(s))
  }

  function Wrapped(text: string): string {
    "%" + text + "%"
  }

  predicate Contains(s: string, x: string) {
    exists i | 0 <= i <= |s| :: x <= s[i..]
  }

  /** No character of x has a meaning of its own in a pattern. */
  predicate Plain(x: string) {
    forall i | 0 <= i < |x| :: PlainChar(x[i])
  }

  predicate PlainChar(c: char) {
    c != '%' && c != '_' && c != '\\'
  }

  lemma PlainTail(x: string)
    requires x != []
    ensures Plain(x) <==> PlainChar(x[0]) && Plain(x[1..])
  {
    assert forall i | 1 <= i < |x| :: x[i] == x[1..][i - 1];
  }

  lemma {:induction false} PercentMatchesAll(s: string)
    ensures LikeMatch("%", s)
    decreases |s|
  {
    if s != [] {
      PercentMatchesAll(s[1..]);
    }
  }

  lemma {:induction false} PlainPrefix(x: string, s: string)
    requires Plain(x)
    ensures LikeMatch(x + "%", s) <==> x <= s
    decreases |x|
  {
    if x == [] {
      assert x + "%" == "%";
      PercentMatchesAll(s);
    } else {
      PlainTail(x);
      assert (x + "%")[1..] == x[1..] + "%";
      if s != [] {
        PlainPrefix(x[1..], s[1..]);
        assert x <= s <==> x[0] == s[0] && x[1..] <= s[1..];
      }
    }
  }

  /** A leading % lets the rest of the pattern start anywhere. */
  lemma {:induction false} LeadingPercent(q: string, s: string)
    ensures LikeMatch("%" + q, s) <==> exists i | 0 <= i <= |s| :: LikeMatch(q, s[i..])
    decreases |s|
  {
    assert ("%" + q)[1..] == q;
    assert s[0..] == s;
    if s != [] {
      LeadingPercent(q, s[1..]);
      if LikeMatch("%" + q, s[1..]) {
        var i :| 0 <= i <= |s[1..]| && LikeMatch(q, s[1..][i..]);
        assert s[1..][i..] == s[i + 1..];
      }
      if i :| 1 <= i <= |s| && LikeMatch(q, s[i..]) {
        assert s[1..][i - 1..] == s[i..];
      }
    }
  }

  lemma PlainSearch(x: string, s: string)
    requires Plain(x)
    ensures LikeMatch(Wrapped(x), s) <==> Contains(s, x)
  {
    assert Wrapped(x) == "%" + (x + "%");
    LeadingPercent(x + "%", s);
    forall i | 0 <= i <= |s| ensures LikeMatch(x + "%", s[i..]) <==> x <= s[i..] {
      PlainPrefix(x, s[i..]);
    }
  }

  /** A text the pattern x% matches, read off x itself. */
  function Witness(x: string): string {
    if x == [] then []
    else if x[0] == '%' then Witness(x[1..])
    else if x[0] == '_' then ['a'] + Witness(x[1..])
    else if x[0] == '\\' then (if |x| == 1 then "%" else [x[1]] + Witness(x[2..]))
    else [x[0]] + Witness(x[1..])
  }

  lemma {:induction false} WitnessMatches(x: string)
    ensures LikeMatch(x + "%", Witness(x))
    decreases |x|
  {
    var p, w := x + "%", Witness(x);
    if x == [] {
      assert p == "%";
    } else if x[0] == '\\' {
      assert p[1] == if |x| == 1 then '%' else x[1];
      if |x| == 1 {
        assert p[2..] == [] && w[1..] == [];
      } else {
        assert p[2..] == x[2..] + "%";
        WitnessMatches(x[2..]);
      }
    } else {
      assert p[1..] == x[1..] + "%";
      WitnessMatches(x[1..]);
    }
  }

  lemma {:induction false} WitnessDiffers(x: string)
    ensures |Witness(x)| <= |x|
    ensures !Plain(x) ==> Witness(x) != x
    decreases |x|
  {
    if x != [] {
      WitnessDiffers(x[1..]);
      if |x| > 1 {
        WitnessDiffers(x[2..]);
      }
      if x[0] != '%' && x[0] != '_' && x[0] != '\\' {
        PlainTail(x);
        assert Witness(x)[1..] == Witness(x[1..]);
      }
    }
  }

  lemma LowerWitness(x: string)
    requires ToLower(x) == x
    ensures ToLower(Witness(x)) == Witness(x)
    decreases |x|
  {
    if x != [] {
      assert LowerChar(x[0]) == x[0];
      LowerTail(x);
      LowerWitness(x[1..]);
      if |x| > 1 {
        assert LowerChar(x[1]) == ToLower(x)[1];
        LowerTail(x[1..]);
        LowerWitness(x[2..]);
      }
    }
  }

  lemma LowerTail(x: string)
    requires x != [] && ToLower(x) == x
    ensures ToLower(x[1..]) == x[1..]
  {
    forall i | 0 <= i < |x| - 1 ensures LowerChar(x[1..][i]) == x[1..][i] {
      assert x[1..][i] == x[i + 1] == ToLower(x)[i + 1];
    }
  }

  lemma NotContained(x: string)
    requires !Plain(x)
    ensures !Contains(Witness(x), x)
  {
    WitnessDiffers(x);
    var w := Witness(x);
    forall i | 0 <= i <= |w| ensures !(x <= w[i..]) {
      assert |w[i..]| == |w| - i && w[0..] == w;
    }
  }

  lemma LowerPlain(x: string)
    ensures Plain(ToLower(x)) <==> Plain(x)
  {
    forall i | 0 <= i < |x|
      ensures PlainChar(ToLower(x)[i]) <==> PlainChar(x[i])
    {}
  }

  /**
    A search box finds exactly the texts that contain what was typed, ignoring
    case, if and only if what was typed has no %, _ or backslash.
  */
  lemma SearchMeansSubstring(x: string)
    ensures (forall s :: ILikeMatch(Wrapped(x), s) <==> Contains(ToLower(s), ToLower(x))) <==> Plain(x)
  {
    var y := ToLower(x);
    LowerPlain(x);
    assert ToLower(Wrapped(x)) == Wrapped(y);
    if Plain(x) {
      forall s ensures ILikeMatch(Wrapped(x), s) <==> Contains(ToLower(s), y) {
        PlainSearch(y, ToLower(s));
      }
    } else {
      var w := Witness(y);
      assert ToLower(y) == y;
      LowerWitness(y);
      WitnessMatches(y);
      LeadingPercent(y + "%", w);
      assert Wrapped(y) == "%" + (y + "%") && w[0..] == w;
      NotContained(y);
      assert ILikeMatch(Wrapped(x), w) && !Contains(ToLower(w), y);
    }
  }
}
