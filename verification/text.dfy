/** String helpers with JavaScript semantics: `String.prototype.trim`,
    `split` on a one-character separator, and lower-casing. */
module Text {

  /** The characters `String.prototype.trim` removes: ECMAScript WhiteSpace
      (tab, vertical tab, form feed, space, no-break space, byte-order mark and
      the Unicode space separators) and LineTerminator. */
  predicate IsSpace(c: char)
  {
    || c == '\t' || c == '\n' || c == '\U{000B}' || c == '\U{000C}' || c == '\r'
    || c == ' ' || c == '\U{00A0}' || c == '\U{1680}'
    || ('\U{2000}' <= c <= '\U{200A}')
    || c == '\U{2028}' || c == '\U{2029}' || c == '\U{202F}' || c == '\U{205F}'
    || c == '\U{3000}' || c == '\U{FEFF}'
  }

  /** `s.trim() === ''`: nothing but white space. */
  predicate IsBlank(s: string)
  {
    forall i :: 0 <= i < |s| ==> IsSpace(s[i])
  }

  /** Neither end of `s` is white space. */
  predicate IsTrimmed(s: string)
  {
    s == "" || (!IsSpace(s[0]) && !IsSpace(s[|s| - 1]))
  }

  function TrimStart(s: string): (r: string)
    ensures |r| <= |s| && r == s[|s| - |r|..]
    ensures IsBlank(s[..|s| - |r|])
    ensures r == "" || !IsSpace(r[0])
  {
    if |s| > 0 && IsSpace(s[0]) then
      var r := TrimStart(s[1..]);
      assert s[..|s| - |r|] == [s[0]] + s[1..][..|s| - 1 - |r|];
      r
    else s
  }

  function TrimEnd(s: string): (r: string)
    ensures |r| <= |s| && r == s[..|r|]
    ensures IsBlank(s[|r|..])
    ensures r == "" || !IsSpace(r[|r| - 1])
  {
    if |s| > 0 && IsSpace(s[|s| - 1]) then
      var r := TrimEnd(s[..|s| - 1]);
      assert s[|r|..] == s[..|s| - 1][|r|..] + [s[|s| - 1]];
      r
    else s
  }

  /** `String.prototype.trim`: the result is the infix of `s` left after
      removing white space from both ends. */
  function Trim(s: string): (r: string)
    ensures r == "" <==> IsBlank(s)
    ensures IsTrimmed(r)
    ensures |r| <= |s|
  {
    TrimBlank(s);
    TrimEnd(TrimStart(s))
  }

  /** What `trim` keeps is the infix of `s` at offset `i`, with only white
      space around it. */
  lemma TrimIsInfix(s: string) returns (i: nat)
    ensures i + |Trim(s)| <= |s| && s[i..i + |Trim(s)|] == Trim(s)
    ensures IsBlank(s[..i]) && IsBlank(s[i + |Trim(s)|..])
  {
    var t := TrimStart(s);
    var r := TrimEnd(t);
    assert Trim(s) == r;
    i := |s| - |t|;
    assert s[i..] == t;
    assert s[i..i + |r|] == t[..|r|];
    assert s[i + |r|..] == t[|r|..];
  }

  /** `trim` adds no character that was not there. */
  lemma TrimKeepsOut(s: string, c: char)
    requires c !in s
    ensures c !in Trim(s)
  {
    var i := TrimIsInfix(s);
    var r := Trim(s);
    forall j | 0 <= j < |r| ensures r[j] != c {
      assert r[j] == s[i + j];
    }
  }

  lemma TrimBlank(s: string)
    ensures TrimEnd(TrimStart(s)) == "" <==> IsBlank(s)
  {
    var t := TrimStart(s);
    var i := |s| - |t|;
    var r := TrimEnd(t);
    assert s[i..] == t;
    if r == "" {
      assert t[|r|..] == t;
      forall k | 0 <= k < |s|
        ensures IsSpace(s[k])
      {
        if k < i {
          assert s[k] == s[..i][k];
        } else {
          assert s[k] == t[k - i];
        }
      }
    } else {
      assert t[0] == r[0];
      assert s[i] == t[0];
    }
  }

  /** Trimming a string without white space at either end changes nothing. */
  lemma TrimOfTrimmed(s: string)
    requires IsTrimmed(s)
    ensures Trim(s) == s
  {
    assert TrimStart(s) == s;
    assert TrimEnd(s) == s;
  }

  /** White space in front does not change what `trim` leaves. */
  lemma {:induction false} TrimStartPadded(pad: string, s: string)
    requires IsBlank(pad)
    ensures TrimStart(pad + s) == TrimStart(s)
  {
    if |pad| > 0 {
      var ps := pad + s;
      assert ps[0] == pad[0] && IsSpace(ps[0]);
      assert ps[1..] == pad[1..] + s;
      assert TrimStart(ps) == TrimStart(ps[1..]);
      TrimStartPadded(pad[1..], s);
    } else {
      assert pad + s == s;
    }
  }

  lemma TrimPadded(pad: string, s: string)
    requires IsBlank(pad)
    ensures Trim(pad + s) == Trim(s)
  {
    TrimStartPadded(pad, s);
  }

  lemma TrimIdempotent(s: string)
    ensures Trim(Trim(s)) == Trim(s)
  {
    TrimOfTrimmed(Trim(s));
  }

  /** The ASCII part of `toLowerCase`. */
  function LowerChar(c: char): char
  {
    if 'A' <= c <= 'Z' then (c as int + 32) as char else c
  }

  function Lower(s: string): (r: string)
    ensures |r| == |s|
    ensures forall i :: 0 <= i < |s| ==> r[i] == LowerChar(s[i])
  {
    if |s| == 0 then "" else [LowerChar(s[0])] + Lower(s[1..])
  }

  /** `parts.join(sep)`. */
  function Join(parts: seq<string>, sep: string): string
    requires |parts| > 0
  {
    if |parts| == 1 then parts[0] else parts[0] + sep + Join(parts[1..], sep)
  }

  /** `s.split(sep)` for a one-character separator: one more piece than there
      are separators, and no piece contains the separator. */
  function Split(s: string, sep: char): (parts: seq<string>)
    ensures |parts| == multiset(s)[sep] + 1
    ensures forall i :: 0 <= i < |parts| ==> sep !in parts[i]
  {
    if |s| == 0 then [""]
    else
      var rest := Split(s[1..], sep);
      assert s == [s[0]] + s[1..];
      if s[0] == sep then [""] + rest
      else [[s[0]] + rest[0]] + rest[1..]
  }

  /** Joining the pieces with the separator gives back the string. */
  lemma {:induction false} JoinOfSplit(s: string, sep: char)
    ensures Join(Split(s, sep), [sep]) == s
  {
    if |s| > 0 {
      var rest := Split(s[1..], sep);
      JoinOfSplit(s[1..], sep);
      assert s == [s[0]] + s[1..];
      if s[0] == sep {
        var parts := [""] + rest;
        assert parts[1..] == rest;
        assert Join(parts, [sep]) == "" + [sep] + Join(rest, [sep]);
      } else {
        JoinFirst(rest, [sep], s[0]);
      }
    }
  }

  /** A character put in front of the first piece comes first in the join. */
  lemma JoinFirst(parts: seq<string>, sep: string, c: char)
    requires |parts| > 0
    ensures Join([[c] + parts[0]] + parts[1..], sep) == [c] + Join(parts, sep)
  {
    var q := [[c] + parts[0]] + parts[1..];
    if |parts| > 1 {
      assert q[1..] == parts[1..];
      var j := Join(parts[1..], sep);
      assert ([c] + parts[0]) + sep + j == [c] + (parts[0] + sep + j);
    }
  }

  lemma {:induction false} SplitOfSepFree(w: string, sep: char)
    requires sep !in w
    ensures Split(w, sep) == [w]
  {
    if |w| > 0 {
      SplitOfSepFree(w[1..], sep);
      assert [w[0]] + w[1..] == w;
    }
  }

  /** A first character other than the separator starts the first piece. */
  lemma SplitUnfold(s: string, sep: char)
    requires |s| > 0 && s[0] != sep
    ensures Split(s, sep) == [[s[0]] + Split(s[1..], sep)[0]] + Split(s[1..], sep)[1..]
  {
  }

  lemma ConsAppend(w: string, x: string)
    requires |w| > 0
    ensures [w[0]] + (w[1..] + x) == w + x
  {
    assert [w[0]] + w[1..] == w;
  }

  /** A separator-free prefix only lengthens the first piece. */
  lemma {:induction false} SplitPrefix(w: string, sep: char, t: string)
    requires sep !in w
    ensures Split(w + t, sep) == [w + Split(t, sep)[0]] + Split(t, sep)[1..]
  {
    var st := Split(t, sep);
    if |w| == 0 {
      assert w + t == t;
      assert w + st[0] == st[0];
      assert st == [st[0]] + st[1..];
    } else {
      var wt := w + t;
      assert wt[0] == w[0];
      assert wt[1..] == w[1..] + t;
      assert sep !in w[1..];
      SplitPrefix(w[1..], sep, t);
      var r1 := Split(w[1..] + t, sep);
      assert r1 == [w[1..] + st[0]] + st[1..];
      assert r1[0] == w[1..] + st[0];
      assert r1[1..] == st[1..];
      SplitUnfold(wt, sep);
      assert Split(wt, sep) == [[w[0]] + r1[0]] + r1[1..];
      ConsAppend(w, st[0]);
    }
  }

  /** A separator-free piece followed by the separator is split off whole. */
  lemma SplitCons(w: string, sep: char, t: string)
    requires sep !in w
    ensures Split(w + [sep] + t, sep) == [w] + Split(t, sep)
  {
    var st := [sep] + t;
    assert w + [sep] + t == w + st;
    SplitPrefix(w, sep, st);
    assert st[1..] == t;
    assert Split(st, sep) == [""] + Split(t, sep);
    assert w + "" == w;
  }

  /** The converse round trip: splitting a join of separator-free pieces gives
      the pieces back. */
  lemma {:induction false} SplitJoin(parts: seq<string>, sep: char)
    requires |parts| > 0
    requires forall i :: 0 <= i < |parts| ==> sep !in parts[i]
    ensures Split(Join(parts, [sep]), sep) == parts
  {
    if |parts| == 1 {
      SplitOfSepFree(parts[0], sep);
    } else {
      SplitJoin(parts[1..], sep);
      SplitCons(parts[0], sep, Join(parts[1..], [sep]));
      assert [parts[0]] + parts[1..] == parts;
    }
  }

  /** `s.split(sep).pop()`: the longest suffix of `s` free of the separator. */
  function LastPiece(s: string, sep: char): (r: string)
    ensures sep !in r
    ensures |r| <= |s| && r == s[|s| - |r|..]
    ensures |r| == |s| || s[|s| - |r| - 1] == sep
  {
    LastPieceIsSuffix(s, sep);
    Split(s, sep)[|Split(s, sep)| - 1]
  }

  /** The separator-free suffix property, stated for one candidate piece. */
  predicate IsLastPiece(s: string, sep: char, r: string)
  {
    |r| <= |s| && r == s[|s| - |r|..] && (|r| == |s| || s[|s| - |r| - 1] == sep)
  }

  lemma {:induction false} LastPieceIsSuffix(s: string, sep: char)
    ensures IsLastPiece(s, sep, Split(s, sep)[|Split(s, sep)| - 1])
  {
    if |s| > 0 {
      var rest := Split(s[1..], sep);
      LastPieceIsSuffix(s[1..], sep);
      if s[0] == sep {
        LastPieceSkip(s, sep, rest);
      } else if |rest| == 1 {
        JoinOfSplit(s[1..], sep);
        assert Join(rest, [sep]) == rest[0];
      } else {
        LastPieceSkip(s, sep, rest);
      }
    }
  }

  lemma LastPieceSkip(s: string, sep: char, rest: seq<string>)
    requires |s| > 0 && rest == Split(s[1..], sep)
    requires s[0] == sep || |rest| > 1
    requires IsLastPiece(s[1..], sep, rest[|rest| - 1])
    ensures IsLastPiece(s, sep, Split(s, sep)[|Split(s, sep)| - 1])
  {
    var parts := Split(s, sep);
    var last := rest[|rest| - 1];
    assert parts[|parts| - 1] == last;
    assert s[1..][|s| - 1 - |last|..] == s[|s| - |last|..];
  }

  /** Any separator-free suffix preceded by the separator is the last piece. */
  lemma LastPieceOfSuffix(stem: string, sep: char, ext: string)
    requires sep !in ext
    ensures LastPiece(stem + [sep] + ext, sep) == ext
  {
    var s := stem + [sep] + ext;
    var r := LastPiece(s, sep);
    assert s[|stem|] == sep;
  }
}
