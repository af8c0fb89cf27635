/** Splitting and joining text on a separator character, as Python's str.split and str.join do. */
module Text {

  predicate Free(s: string, c: char)
  {
    c !in s
  }

  predicate AllFree(parts: seq<string>, c: char)
  {
    forall i :: 0 <= i < |parts| ==> Free(parts[i], c)
  }

  function Split(s: string, sep: char): (parts: seq<string>)
    ensures |parts| >= 1
  {
    if s == "" then [""]
    else
      var rest := Split(s[1..], sep);
      if s[0] == sep then [""] + rest else [[s[0]] + rest[0]] + rest[1..]
  }

  function Join(parts: seq<string>, sep: char): string
  {
    if |parts| == 0 then ""
    else if |parts| == 1 then parts[0]
    else parts[0] + [sep] + Join(parts[1..], sep)
  }

  lemma {:induction false} SplitFree(s: string, sep: char)
    ensures AllFree(Split(s, sep), sep)
  {
    if s != "" {
      SplitFree(s[1..], sep);
    }
  }

  /** Text without the separator is a single part. */
  lemma {:induction false} SplitNone(s: string, sep: char)
    requires Free(s, sep)
    ensures Split(s, sep) == [s]
  {
    if s != "" {
      assert forall c :: c in s[1..] ==> c in s;
      SplitNone(s[1..], sep);
      assert [s[0]] + s[1..] == s;
    }
  }

  /** The parts of p followed by those of q, with the two parts that meet run together. */
  function Glue(p: seq<string>, q: seq<string>): seq<string>
    requires |p| >= 1 && |q| >= 1
  {
    p[..|p| - 1] + [p[|p| - 1] + q[0]] + q[1..]
  }

  /** A character put before the first part. */
  function Prefixed(c: char, p: seq<string>): seq<string>
    requires |p| >= 1
  {
    [[c] + p[0]] + p[1..]
  }

  lemma GlueAfter(x: string, r: seq<string>, q: seq<string>)
    requires |r| >= 1 && |q| >= 1
    ensures Glue([x] + r, q) == [x] + Glue(r, q)
  {
  }

  lemma GluePrefixed(c: char, r: seq<string>, q: seq<string>)
    requires |r| >= 1 && |q| >= 1
    ensures Glue(Prefixed(c, r), q) == Prefixed(c, Glue(r, q))
  {
    var p, g := Prefixed(c, r), Glue(r, q);
    if |r| == 1 {
      assert [c] + r[0] + q[0] == [c] + (r[0] + q[0]);
      assert g[1..] == q[1..];
    } else {
      assert p[..|p| - 1] == [[c] + r[0]] + r[1..|r| - 1];
      assert g[1..] == r[1..|r| - 1] + [r[|r| - 1] + q[0]] + q[1..];
    }
  }

  /** Splitting a concatenation glues the two splits. */
  lemma {:induction false} SplitConcat(a: string, b: string, sep: char)
    ensures Split(a + b, sep) == Glue(Split(a, sep), Split(b, sep))
  {
    var q := Split(b, sep);
    if a == "" {
      assert a + b == b;
      assert "" + q[0] == q[0];
      assert [q[0]] + q[1..] == q;
    } else {
      var r := Split(a[1..], sep);
      assert (a + b)[1..] == a[1..] + b;
      SplitConcat(a[1..], b, sep);
      hide Glue;
      if a[0] == sep {
        GlueAfter("", r, q);
      } else {
        GluePrefixed(a[0], r, q);
      }
    }
  }

  lemma {:induction false} JoinCons(p: string, rest: seq<string>, sep: char)
    requires |rest| >= 1
    ensures Join([p] + rest, sep) == p + [sep] + Join(rest, sep)
  {
  }

  /** Splitting a joined text gives back the parts split one by one. */
  lemma SplitJoinCons(p: string, rest: string, sep: char)
    ensures Split(p + [sep] + rest, sep) == Split(p, sep) + Split(rest, sep)
  {
    hide Split, Glue;
    var tail := [sep] + rest;
    assert p + [sep] + rest == p + tail;
    SplitSeparator(rest, sep);
    SplitConcat(p, tail, sep);
    GlueEmpty(Split(p, sep), Split(rest, sep));
  }

  lemma SplitSeparator(rest: string, sep: char)
    ensures Split([sep] + rest, sep) == [""] + Split(rest, sep)
  {
    assert ([sep] + rest)[1..] == rest;
  }

  lemma GlueEmpty(q: seq<string>, r: seq<string>)
    requires |q| >= 1
    ensures Glue(q, [""] + r) == q + r
  {
    assert q[|q| - 1] + "" == q[|q| - 1];
    assert q[..|q| - 1] + [q[|q| - 1]] == q;
  }

  /** Parts without the separator survive joining and splitting. */
  lemma {:induction false} SplitJoin(parts: seq<string>, sep: char)
    requires |parts| >= 1 && AllFree(parts, sep)
    ensures Split(Join(parts, sep), sep) == parts
  {
    SplitNone(parts[0], sep);
    if |parts| == 1 {
      assert parts == [parts[0]];
    } else {
      SplitJoin(parts[1..], sep);
      SplitJoinCons(parts[0], Join(parts[1..], sep), sep);
      assert parts == [parts[0]] + parts[1..];
    }
  }

  /** Joining never loses parts; it keeps their number exactly when none holds the separator. */
  lemma {:induction false} SplitJoinCount(parts: seq<string>, sep: char)
    requires |parts| >= 1
    ensures |Split(Join(parts, sep), sep)| >= |parts|
    ensures |Split(Join(parts, sep), sep)| == |parts| <==> AllFree(parts, sep)
  {
    SplitSingle(parts[0], sep);
    if |parts| == 1 {
      assert AllFree(parts, sep) <==> Free(parts[0], sep);
    } else {
      SplitJoinCount(parts[1..], sep);
      SplitJoinCons(parts[0], Join(parts[1..], sep), sep);
      if AllFree(parts[1..], sep) && Free(parts[0], sep) {
        forall i | 0 <= i < |parts| ensures Free(parts[i], sep) {
          assert i > 0 ==> parts[1..][i - 1] == parts[i];
        }
      }
      if AllFree(parts, sep) {
        assert forall i :: 0 <= i < |parts[1..]| ==> parts[1..][i] == parts[i + 1];
      }
    }
  }

  lemma {:induction false} SplitSingle(s: string, sep: char)
    ensures |Split(s, sep)| == 1 <==> Free(s, sep)
  {
    if s != "" {
      SplitSingle(s[1..], sep);
    }
  }

  /** The characters that str.strip removes. */
  predicate IsSpace(c: char)
  {
    var n := c as int;
    9 <= n <= 13 || 28 <= n <= 32 || n == 0x85 || n == 0xA0 || n == 0x1680 || 0x2000 <= n <= 0x200A
    || n == 0x2028 || n == 0x2029 || n == 0x202F || n == 0x205F || n == 0x3000
  }

  /** They are the 29 code points Unicode counts as white space or separators of text. */
  lemma SpaceCodes(c: char)
    ensures IsSpace(c) <==> c as int in {
      9, 10, 11, 12, 13, 28, 29, 30, 31, 32, 0x85, 0xA0, 0x1680,
      0x2000, 0x2001, 0x2002, 0x2003, 0x2004, 0x2005, 0x2006, 0x2007, 0x2008, 0x2009, 0x200A,
      0x2028, 0x2029, 0x202F, 0x205F, 0x3000}
  {
  }

  function StripLeft(s: string): (t: string)
    ensures |t| <= |s|
  {
    if s != "" && IsSpace(s[0]) then StripLeft(s[1..]) else s
  }

  function StripRight(s: string): string
    decreases |s|
  {
    if s != "" && IsSpace(s[|s| - 1]) then StripRight(s[..|s| - 1]) else s
  }

  /** str.strip. */
  function Strip(s: string): string
  {
    StripRight(StripLeft(s))
  }

  /** Upper-casing of ASCII letters. */
  function UpperChar(c: char): char
  {
    if 'a' <= c <= 'z' then (c as int - 32) as char else c
  }

  function Upper(s: string): (u: string)
    ensures |u| == |s|
    ensures forall i :: 0 <= i < |s| ==> u[i] == UpperChar(s[i])
  {
    seq(|s|, i requires 0 <= i < |s| => UpperChar(s[i]))
  }

  predicate Ascii(s: string)
  {
    forall i :: 0 <= i < |s| ==> s[i] as int < 128
  }

  /** Stripping removes nothing exactly when neither end is a space. */
  lemma StripKeeps(s: string)
    ensures Strip(s) == s <==> s == "" || (!IsSpace(s[0]) && !IsSpace(s[|s| - 1]))
  {
    StripLeftLength(s);
    StripRightLength(StripLeft(s));
  }

  lemma {:induction false} StripLeftLength(s: string)
    ensures |StripLeft(s)| <= |s|
    ensures s != "" && IsSpace(s[0]) ==> |StripLeft(s)| < |s|
  {
    if s != "" && IsSpace(s[0]) {
      StripLeftLength(s[1..]);
    }
  }

  lemma {:induction false} StripRightLength(s: string)
    ensures |StripRight(s)| <= |s|
    ensures s != "" && IsSpace(s[|s| - 1]) ==> |StripRight(s)| < |s|
    decreases |s|
  {
    if s != "" && IsSpace(s[|s| - 1]) {
      StripRightLength(s[..|s| - 1]);
    }
  }

  /** Trailing white space after a text that needs no stripping is removed. */
  lemma {:induction false} StripTrailing(s: string, space: string)
    requires s != "" && !IsSpace(s[0]) && !IsSpace(s[|s| - 1])
    requires forall i :: 0 <= i < |space| ==> IsSpace(space[i])
    ensures Strip(s + space) == s
  {
    assert (s + space)[0] == s[0];
    StripRightTail(s, space);
  }

  lemma {:induction false} StripRightTail(s: string, space: string)
    requires s != "" && !IsSpace(s[|s| - 1])
    requires forall i :: 0 <= i < |space| ==> IsSpace(space[i])
    ensures StripRight(s + space) == s
    decreases |space|
  {
    var t := s + space;
    if space == "" {
      assert t == s;
    } else {
      assert t[|t| - 1] == space[|space| - 1];
      assert t[..|t| - 1] == s + space[..|space| - 1];
      StripRightTail(s, space[..|space| - 1]);
    }
  }

  // ---------- Where stripping cuts ----------

  predicate Spaces(s: string)
  {
    forall i :: 0 <= i < |s| ==> IsSpace(s[i])
  }

  predicate SolidEnds(s: string)
  {
    s == "" || (!IsSpace(s[0]) && !IsSpace(s[|s| - 1]))
  }

  lemma {:induction false} StripLeftAfter(w: string, s: string)
    requires Spaces(w)
    ensures StripLeft(w + s) == StripLeft(s)
  {
    if w == "" {
      assert w + s == s;
    } else {
      assert (w + s)[1..] == w[1..] + s;
      StripLeftAfter(w[1..], s);
    }
  }

  lemma {:induction false} StripRightBefore(s: string, w: string)
    requires Spaces(w)
    ensures StripRight(s + w) == StripRight(s)
    decreases |w|
  {
    if w == "" {
      assert s + w == s;
    } else {
      var n := |w| - 1;
      assert (s + w)[..|s + w| - 1] == s + w[..n];
      StripRightBefore(s, w[..n]);
    }
  }

  /** White space around a text with solid ends is what stripping removes. */
  lemma StripAround(u: string, t: string, v: string)
    requires Spaces(u) && SolidEnds(t) && Spaces(v)
    ensures Strip(u + t + v) == t
  {
    assert u + t + v == u + (t + v);
    StripLeftAfter(u, t + v);
    if t == "" {
      assert t + v == v && v + "" == v;
      StripLeftAfter(v, "");
    } else {
      assert StripLeft(t + v) == t + v;
      StripRightBefore(t, v);
    }
  }

  lemma {:induction false} LeftCut(s: string) returns (u: string)
    ensures Spaces(u) && s == u + StripLeft(s)
    ensures StripLeft(s) == "" || !IsSpace(StripLeft(s)[0])
  {
    hide IsSpace;
    if s != "" && IsSpace(s[0]) {
      var u' := LeftCut(s[1..]);
      u := [s[0]] + u';
      assert StripLeft(s) == StripLeft(s[1..]);
      assert s == [s[0]] + s[1..] == u + StripLeft(s);
    } else {
      u := "";
      assert StripLeft(s) == s == u + s;
    }
  }

  lemma {:induction false} RightCut(s: string) returns (v: string)
    ensures Spaces(v) && s == StripRight(s) + v
    ensures StripRight(s) == "" || (!IsSpace(StripRight(s)[|StripRight(s)| - 1]) && StripRight(s)[0] == s[0])
    decreases |s|
  {
    if s != "" && IsSpace(s[|s| - 1]) {
      var v' := RightCut(s[..|s| - 1]);
      v := v' + [s[|s| - 1]];
      assert s == s[..|s| - 1] + [s[|s| - 1]];
    } else {
      v := "";
    }
  }

  /** Every text is its stripped form between two stretches of white space. */
  lemma StripParts(s: string) returns (u: string, v: string)
    ensures Spaces(u) && Spaces(v) && SolidEnds(Strip(s)) && s == u + Strip(s) + v
  {
    u := LeftCut(s);
    v := RightCut(StripLeft(s));
  }

  lemma StripDropsTrailing(s: string, w: string)
    requires Spaces(w)
    ensures Strip(s + w) == Strip(s)
  {
    var u, v := StripParts(s);
    assert s + w == u + Strip(s) + (v + w);
    StripAround(u, Strip(s), v + w);
  }

  /** How many characters are not white space. */
  function Solids(s: string): nat
  {
    if s == "" then 0 else Solids(s[..|s| - 1]) + if IsSpace(s[|s| - 1]) then 0 else 1
  }

  lemma {:induction false} SolidsConcat(a: string, b: string)
    ensures Solids(a + b) == Solids(a) + Solids(b)
    decreases |b|
  {
    if b == "" {
      assert a + b == a;
    } else {
      assert (a + b)[..|a + b| - 1] == a + b[..|b| - 1];
      SolidsConcat(a, b[..|b| - 1]);
    }
  }

  lemma {:induction false} SpacesHaveNoSolids(s: string)
    ensures Spaces(s) ==> Solids(s) == 0
    ensures (forall i :: 0 <= i < |s| ==> !IsSpace(s[i])) ==> Solids(s) == |s|
  {
    if s != "" {
      SpacesHaveNoSolids(s[..|s| - 1]);
    }
  }

  lemma StripKeepsSolids(s: string)
    ensures Solids(Strip(s)) == Solids(s)
  {
    var u, v := StripParts(s);
    SolidsConcat(u + Strip(s), v);
    SolidsConcat(u, Strip(s));
    SpacesHaveNoSolids(u);
    SpacesHaveNoSolids(v);
  }

  /** Replacing one character shifts the count by what is replaced. */
  lemma SolidsSubstituted(s: string, k: nat, c: char)
    requires k < |s|
    ensures Solids(s[k := c]) + (if IsSpace(s[k]) then 0 else 1) == Solids(s) + (if IsSpace(c) then 0 else 1)
  {
    var a, b := s[..k], s[k + 1..];
    assert s == a + [s[k]] + b && s[k := c] == a + [c] + b;
    SolidsConcat(a + [s[k]], b);
    SolidsConcat(a + [c], b);
    SolidsConcat(a, [s[k]]);
    SolidsConcat(a, [c]);
    assert forall x: char :: Solids([x]) == if IsSpace(x) then 0 else 1 by {
      forall x: char ensures Solids([x]) == if IsSpace(x) then 0 else 1 {
        assert [x][..0] == "" && Solids("") == 0;
      }
    }
  }
}
