/**
 * String handling shared by the servlet and the browser script: ASCII case
 * folding, `String.split(", ")` as Java performs it, and the `", "`-joined
 * encoding that the questionnaire script builds.
 */
module Text {

  /** The two characters that separate list items in a form field. */
  const Separator: string := ", "

  function LowerChar(c: char): (d: char)
    ensures 'A' <= c <= 'Z' ==> 'a' <= d <= 'z'
    ensures !('A' <= c <= 'Z') ==> d == c
  {
    if 'A' <= c <= 'Z' then (c as int - 'A' as int + 'a' as int) as char else c
  }

  function UpperChar(c: char): (d: char)
    ensures 'a' <= c <= 'z' ==> 'A' <= d <= 'Z'
    ensures !('a' <= c <= 'z') ==> d == c
  {
    if 'a' <= c <= 'z' then (c as int - 'a' as int + 'A' as int) as char else c
  }

  /** Lower-cases the ASCII letters of `s` and keeps every other character. */
  function Lower(s: string): (r: string)
    ensures |r| == |s|
    ensures forall i :: 0 <= i < |s| ==> r[i] == LowerChar(s[i])
  {
    if s == [] then [] else [LowerChar(s[0])] + Lower(s[1..])
  }

  /** `w` is made of lower-case ASCII letters only. */
  predicate IsLowerWord(w: string) {
    forall i :: 0 <= i < |w| ==> 'a' <= w[i] <= 'z'
  }

  /**
   * `s` spells the lower-case word `w` with each letter in either case,
   * stated through upper-casing the word rather than lower-casing `s`.
   */
  predicate SpellsIgnoringCase(s: string, w: string) {
    |s| == |w| && forall i :: 0 <= i < |s| ==> s[i] == w[i] || s[i] == UpperChar(w[i])
  }

  /** Lower-casing `s` gives the word `w` exactly when `s` spells `w` in any letter case. */
  lemma LowerIsWordIff(s: string, w: string)
    requires IsLowerWord(w)
    ensures Lower(s) == w <==> SpellsIgnoringCase(s, w)
  {
    if SpellsIgnoringCase(s, w) {
      forall i | 0 <= i < |s| ensures Lower(s)[i] == w[i] {
        assert LowerChar(s[i]) == w[i];
      }
    }
    if Lower(s) == w {
      forall i | 0 <= i < |s| ensures s[i] == w[i] || s[i] == UpperChar(w[i]) {
        assert LowerChar(s[i]) == w[i];
      }
    }
  }

  /**
   * The display form of an enum constant name: every `_` becomes a space and
   * each word keeps its first letter upper-case and lower-cases the rest.
   */
  function TitleCase(name: string): (r: string)
  {
    seq(|name|, i requires 0 <= i < |name| => TitleChar(name, i))
  }

  function TitleChar(name: string, i: nat): (c: char)
    requires i < |name|
  {
    if name[i] == '_' then ' '
    else if i == 0 || name[i - 1] == '_' then UpperChar(name[i])
    else LowerChar(name[i])
  }

  /**
   * `Boolean.parseBoolean`: true exactly for "true" in any letter case.
   */
  function ParseBoolean(s: string): (b: bool)
    ensures b <==> |s| == 4 && s[0] in "tT" && s[1] in "rR" && s[2] in "uU" && s[3] in "eE"
  {
    Lower(s) == "true"
  }

  /** True when `s` has no occurrence of the separator `", "`. */
  predicate NoSeparator(s: string) {
    forall i :: 0 <= i < |s| - 1 ==> !(s[i] == ',' && s[i + 1] == ' ')
  }

  /**
   * The pieces of `s` between the leftmost non-overlapping occurrences of
   * `", "`, scanning from the left, empty pieces included. Joining them with
   * the separator rebuilds `s`.
   */
  function Pieces(s: string): (r: seq<string>)
    ensures |r| >= 1
    ensures r[0] <= s
    ensures Join(r) == s
    decreases |s|
  {
    if |s| < 2 then [s]
    else if s[0] == ',' && s[1] == ' ' then
      var rest := Pieces(s[2..]);
      assert ([""] + rest)[1..] == rest;
      assert s == Separator + s[2..];
      [""] + rest
    else
      var rest := Pieces(s[1..]);
      JoinExtendFirst(s[0], rest);
      assert [s[0]] + s[1..] == s;
      [[s[0]] + rest[0]] + rest[1..]
  }

  /** No piece contains the separator, and a string without it is one piece. */
  lemma {:induction false} PiecesAreSeparatorFree(s: string)
    ensures forall i :: 0 <= i < |Pieces(s)| ==> NoSeparator(Pieces(s)[i])
    ensures NoSeparator(s) ==> Pieces(s) == [s]
    decreases |s|
  {
    if |s| < 2 {
    } else if s[0] == ',' && s[1] == ' ' {
      PiecesAreSeparatorFree(s[2..]);
      assert Pieces(s) == [""] + Pieces(s[2..]);
    } else {
      var rest := Pieces(s[1..]);
      PiecesAreSeparatorFree(s[1..]);
      var first := [s[0]] + rest[0];
      assert Pieces(s) == [first] + rest[1..];
      assert NoSeparator(first) by {
        forall i | 0 <= i < |first| - 1
          ensures !(first[i] == ',' && first[i + 1] == ' ')
        {
          if i > 0 {
            assert first[i] == rest[0][i - 1] && first[i + 1] == rest[0][i];
          } else {
            assert first[1] == s[1];
          }
        }
      }
      assert NoSeparator(s) ==> NoSeparator(s[1..]) && [s[0]] + s[1..] == s;
    }
  }

  /** Drops the empty strings at the end of `ps`. */
  function StripTrailingEmpty(ps: seq<string>): (r: seq<string>)
    ensures r <= ps
    ensures r == [] || r[|r| - 1] != ""
    ensures forall i :: |r| <= i < |ps| ==> ps[i] == ""
  {
    if ps == [] then []
    else if ps[|ps| - 1] == "" then StripTrailingEmpty(ps[..|ps| - 1])
    else ps
  }

  /**
   * `s.split(", ")` in Java: when the separator never occurs the result is
   * `[s]` (even for the empty string); otherwise it is the pieces with the
   * trailing empty ones removed, which may leave nothing at all.
   */
  function JavaSplit(s: string): (r: seq<string>)
    ensures forall i :: 0 <= i < |r| ==> NoSeparator(r[i])
    ensures NoSeparator(s) ==> r == [s]
    ensures r == [] || r[|r| - 1] != "" || r == [s]
    ensures r == [s] || (r <= Pieces(s) && forall i :: |r| <= i < |Pieces(s)| ==> Pieces(s)[i] == "")
  {
    PiecesAreSeparatorFree(s);
    var ps := Pieces(s);
    if |ps| == 1 then ps else StripTrailingEmpty(ps)
  }

  /** The values joined by `", "`, as the questionnaire script writes them. */
  function Join(vs: seq<string>): (r: string)
    decreases |vs|
  {
    if vs == [] then ""
    else if |vs| == 1 then vs[0]
    else vs[0] + Separator + Join(vs[1..])
  }

  /** A join of at least two values starts with the first value and the separator. */
  lemma JoinCons(a: string, vs: seq<string>)
    requires |vs| >= 1
    ensures Join([a] + vs) == a + Separator + Join(vs)
  {
    assert ([a] + vs)[1..] == vs;
  }

  /** Extending the first value of a join extends the joined string. */
  lemma JoinExtendFirst(c: char, vs: seq<string>)
    requires |vs| >= 1
    ensures Join([[c] + vs[0]] + vs[1..]) == [c] + Join(vs)
  {
    if |vs| == 1 {
      JoinExtendSingle(c, vs);
    } else {
      JoinExtendMany(c, vs);
    }
  }

  lemma JoinExtendSingle(c: char, vs: seq<string>)
    requires |vs| == 1
    ensures Join([[c] + vs[0]] + vs[1..]) == [c] + Join(vs)
  {
  }

  lemma JoinExtendMany(c: char, vs: seq<string>)
    requires |vs| > 1
    ensures Join([[c] + vs[0]] + vs[1..]) == [c] + Join(vs)
  {
    var tail := vs[1..];
    assert vs == [vs[0]] + tail;
    JoinCons(vs[0], tail);
    JoinCons([c] + vs[0], tail);
  }

  /** A plain value followed by the separator is cut off as the first piece. */
  lemma {:induction false} PiecesOfCons(v: string, t: string)
    requires NoSeparator(v)
    ensures Pieces(v + Separator + t) == [v] + Pieces(t)
    decreases |v|
  {
    var s := v + Separator + t;
    if |v| == 0 {
      assert s == ", " + t;
      assert s[2..] == t;
    } else {
      assert s[0] == v[0];
      if |v| == 1 {
        assert s[1] == ',';
      } else {
        assert s[1] == v[1];
        assert !(v[0] == ',' && v[1] == ' ');
      }
      assert NoSeparator(v[1..]) by {
        forall i | 0 <= i < |v[1..]| - 1
          ensures !(v[1..][i] == ',' && v[1..][i + 1] == ' ')
        {
          assert v[1..][i] == v[i + 1] && v[1..][i + 1] == v[i + 2];
        }
      }
      assert s[1..] == v[1..] + Separator + t;
      PiecesOfCons(v[1..], t);
      assert [v[0]] + v[1..] == v;
    }
  }

  /** Splitting a join into pieces gives back every value, empty ones included. */
  lemma {:induction false} PiecesOfJoin(vs: seq<string>)
    requires |vs| >= 1
    requires forall i :: 0 <= i < |vs| ==> NoSeparator(vs[i])
    ensures Pieces(Join(vs)) == vs
    decreases |vs|
  {
    if |vs| == 1 {
      PiecesAreSeparatorFree(vs[0]);
    } else {
      PiecesOfJoin(vs[1..]);
      PiecesOfCons(vs[0], Join(vs[1..]));
      assert [vs[0]] + vs[1..] == vs;
    }
  }

  /**
   * Round trip between the browser's encoding and the servlet's decoding:
   * Java's split of a join gives back the values, provided none of them
   * contains the separator and the join does not end in a dropped empty piece.
   */
  lemma SplitJoinRoundTrip(vs: seq<string>)
    requires |vs| >= 1
    requires forall i :: 0 <= i < |vs| ==> NoSeparator(vs[i])
    requires |vs| == 1 || vs[|vs| - 1] != ""
    ensures JavaSplit(Join(vs)) == vs
  {
    PiecesOfJoin(vs);
  }

  /**
   * The round trip fails whenever the last of several values is empty: Java
   * drops trailing empty tokens, so the split comes back shorter. This is why
   * `SplitJoinRoundTrip` excludes that case.
   */
  lemma TrailingEmptyValueIsLost(vs: seq<string>)
    requires |vs| >= 2
    requires forall i :: 0 <= i < |vs| ==> NoSeparator(vs[i])
    requires vs[|vs| - 1] == ""
    ensures |JavaSplit(Join(vs))| < |vs|
    ensures JavaSplit(Join(vs)) != vs
  {
    PiecesOfJoin(vs);
  }
}
