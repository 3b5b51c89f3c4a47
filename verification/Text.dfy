/**
 The string operations of Go's strings package that the models rely on, over ASCII and the
 Latin-1 letters.
 */
module Text {

  // unicode.IsSpace
  predicate IsSpace(c: char) {
    '\t' <= c <= '\r' || c == ' ' || c == '\U{0085}' || c == '\U{00A0}' || c == '\U{1680}' ||
    '\U{2000}' <= c <= '\U{200A}' || c == '\U{2028}' || c == '\U{2029}' || c == '\U{202F}' ||
    c == '\U{205F}' || c == '\U{3000}'
  }

  // The white space of Latin-1.
  lemma LatinSpaces(c: char)
    requires c <= '\U{00FF}'
    ensures IsSpace(c) <==> c as int in {9, 10, 11, 12, 13, 32, 0x85, 0xA0}
  {
  }

  predicate AsciiUpper(c: char) { 'A' <= c <= 'Z' }

  predicate AsciiLower(c: char) { 'a' <= c <= 'z' }

  predicate Latin1Upper(c: char) { '\U{00C0}' <= c <= '\U{00DE}' && c != '\U{00D7}' }

  predicate Latin1Lower(c: char) { '\U{00E0}' <= c <= '\U{00FE}' && c != '\U{00F7}' }

  function LowerChar(c: char): char {
    if AsciiUpper(c) || Latin1Upper(c) then c + ' '
    else if c == '\U{0178}' then '\U{00FF}'
    else c
  }

  function UpperChar(c: char): char {
    if AsciiLower(c) || Latin1Lower(c) then c - ' '
    else if c == '\U{00FF}' then '\U{0178}'
    else c
  }

  // Case never changes what is a space, and letters that agree in one case agree in the other.
  lemma CaseLaws(a: char, b: char)
    ensures IsSpace(LowerChar(a)) <==> IsSpace(a)
    ensures IsSpace(UpperChar(a)) <==> IsSpace(a)
    ensures LowerChar(a) == LowerChar(b) <==> UpperChar(a) == UpperChar(b)
    ensures UpperChar(LowerChar(a)) == UpperChar(a) && LowerChar(UpperChar(a)) == LowerChar(a)
  {
  }

  // ----- Occurrence -----

  predicate OccursAt(s: string, sub: string, i: nat) { i + |sub| <= |s| && s[i..i + |sub|] == sub }

  // strings.Contains
  predicate Contains(s: string, sub: string) {
    exists i | 0 <= i <= |s| :: OccursAt(s, sub, i)
  }

  lemma ContainsTail(s: string, head: string, tail: string)
    requires Contains(s, head + tail)
    ensures Contains(s, tail)
  {
    var i :| 0 <= i <= |s| && OccursAt(s, head + tail, i);
    assert s[i + |head|..i + |head| + |tail|] == s[i..i + |head + tail|][|head|..];
    assert OccursAt(s, tail, i + |head|);
  }

  // ----- Character maps and tokens -----

  function Drop(s: string, dropped: char -> bool): string {
    if s == "" then "" else (if dropped(s[0]) then "" else [s[0]]) + Drop(s[1..], dropped)
  }

  lemma {:induction false} DropJoins(a: string, b: string, dropped: char -> bool)
    ensures Drop(a + b, dropped) == Drop(a, dropped) + Drop(b, dropped)
  {
    if a == "" {
      assert a + b == b;
    } else {
      DropJoins(a[1..], b, dropped);
      assert (a + b)[0] == a[0] && (a + b)[1..] == a[1..] + b;
      var head, x, y := if dropped(a[0]) then "" else [a[0]], Drop(a[1..], dropped), Drop(b, dropped);
      assert head + (x + y) == (head + x) + y;
    }
  }

  lemma {:induction false} DropNone(s: string, dropped: char -> bool)
    requires forall c | c in s :: !dropped(c)
    ensures Drop(s, dropped) == s
  {
    if s != "" {
      assert s[0] in s && forall c | c in s[1..] :: c in s;
      DropNone(s[1..], dropped);
    }
  }

  lemma DropOne(c: char, dropped: char -> bool)
    ensures Drop([c], dropped) == if dropped(c) then "" else [c]
  {
    assert [c][1..] == "";
  }

  predicate NoDigit(c: char) { !('0' <= c <= '9') }

  // digitsOnly
  function DigitsOnly(s: string): string { Drop(s, NoDigit) }

  // The digits, in order, and nothing else.
  lemma DigitsJoin(a: string, b: string)
    ensures DigitsOnly(a + b) == DigitsOnly(a) + DigitsOnly(b)
    ensures forall c: char :: DigitsOnly([c]) == if '0' <= c <= '9' then [c] else ""
  {
    DropJoins(a, b, NoDigit);
    forall c: char ensures DigitsOnly([c]) == if '0' <= c <= '9' then [c] else "" { DropOne(c, NoDigit); }
  }

  lemma {:induction false} NoDigits(s: string)
    requires forall c | c in s :: !('0' <= c <= '9')
    ensures DigitsOnly(s) == ""
  {
    if s != "" {
      assert s[0] in s && forall c | c in s[1..] :: c in s;
      NoDigits(s[1..]);
    }
  }

  function MapChars(s: string, f: char -> char): (r: string)
    ensures |r| == |s| && forall i | 0 <= i < |s| :: r[i] == f(s[i])
  {
    seq(|s|, i requires 0 <= i < |s| => f(s[i]))
  }

  function MapEach(ts: seq<string>, f: char -> char): (r: seq<string>)
    ensures |r| == |ts| && forall i | 0 <= i < |ts| :: r[i] == MapChars(ts[i], f)
  {
    seq(|ts|, i requires 0 <= i < |ts| => MapChars(ts[i], f))
  }

  function ToLower(s: string): string { MapChars(s, LowerChar) }

  function ToUpper(s: string): string { MapChars(s, UpperChar) }

  // strings.FieldsFunc: the maximal runs of characters that are not separators.
  function Split(s: string, sep: char -> bool): (ts: seq<string>)
    ensures s != [] && !sep(s[0]) ==> ts != [] && ts[0] != [] && ts[0][0] == s[0]
  {
    if s == [] then []
    else
      var rest := Split(s[1..], sep);
      if sep(s[0]) then rest
      else if |s| == 1 || sep(s[1]) then [[s[0]]] + rest
      else [[s[0]] + rest[0]] + rest[1..]
  }

  function Fields(s: string): seq<string> { Split(s, IsSpace) }

  function Join(ts: seq<string>, glue: string): string {
    if ts == [] then []
    else if |ts| == 1 then ts[0]
    else ts[0] + glue + Join(ts[1..], glue)
  }

  function TrimLeft(s: string): string {
    if s != [] && IsSpace(s[0]) then TrimLeft(s[1..]) else s
  }

  function TrimRight(s: string): string {
    if s != [] && IsSpace(s[|s| - 1]) then TrimRight(s[..|s| - 1]) else s
  }

  // strings.TrimSpace
  function Trim(s: string): string { TrimRight(TrimLeft(s)) }

  // What is trimmed is white space, and all of it at both ends: these three facts fix the result.
  lemma {:induction false} TrimIs(s: string) returns (i: nat, j: nat)
    ensures i <= j <= |s| && Trim(s) == s[i..j]
    ensures forall k | 0 <= k < i || j <= k < |s| :: IsSpace(s[k])
    ensures i < j ==> !IsSpace(s[i]) && !IsSpace(s[j - 1])
  {
    i := LeftEnd(s);
    j := RightEnd(s[i..]);
    assert s[i..][..j] == s[i..i + j];
    forall k | i + j <= k < |s| ensures IsSpace(s[k]) { assert s[i..][k - i] == s[k]; }
    assert j > 0 ==> s[i..][0] == s[i] && s[i..][j - 1] == s[i + j - 1];
    j := i + j;
  }

  lemma {:induction false} LeftEnd(s: string) returns (i: nat)
    ensures i <= |s| && TrimLeft(s) == s[i..]
    ensures forall k | 0 <= k < i :: IsSpace(s[k])
    ensures i < |s| ==> !IsSpace(s[i])
  {
    i := 0;
    if s != [] && IsSpace(s[0]) {
      i := LeftEnd(s[1..]);
      assert s[1..][i..] == s[i + 1..];
      assert i < |s| - 1 ==> s[1..][i] == s[i + 1];
      forall k | 0 < k < i + 1 ensures IsSpace(s[k]) { assert s[1..][k - 1] == s[k]; }
      i := i + 1;
    }
  }

  lemma {:induction false} RightEnd(s: string) returns (j: nat)
    ensures j <= |s| && TrimRight(s) == s[..j]
    ensures forall k | j <= k < |s| :: IsSpace(s[k])
    ensures j > 0 ==> !IsSpace(s[j - 1])
  {
    j := |s|;
    if s != [] && IsSpace(s[|s| - 1]) {
      j := RightEnd(s[..|s| - 1]);
      assert s[..|s| - 1][..j] == s[..j];
    }
  }

  lemma TrimIsInside(s: string)
    ensures forall c | c in Trim(s) :: c in s
  {
    var i, j := TrimIs(s);
  }

  // Only one stretch can be left.
  lemma TrimmedIs(s: string, i: nat, j: nat)
    requires i <= j <= |s| && (forall k | 0 <= k < i || j <= k < |s| :: IsSpace(s[k]))
    requires i < j ==> !IsSpace(s[i]) && !IsSpace(s[j - 1])
    ensures Trim(s) == s[i..j]
  {
    var a, b := TrimIs(s);
    assert i < j ==> a <= i && j <= b;
    assert a < b ==> i <= a && b <= j;
  }

  lemma TrimmedIsTight(s: string)
    requires s != "" ==> !IsSpace(s[0]) && !IsSpace(s[|s| - 1])
    ensures Trim(s) == s
  {
  }

  lemma {:induction false} SplitDropsTrailing(s: string, c: char, sep: char -> bool)
    requires sep(c)
    ensures Split(s + [c], sep) == Split(s, sep)
  {
    if s != [] {
      assert (s + [c])[1..] == s[1..] + [c];
      SplitDropsTrailing(s[1..], c, sep);
    }
  }

  lemma {:induction false} SplitTrimLeft(s: string)
    ensures Fields(TrimLeft(s)) == Fields(s)
  {
    if s != [] && IsSpace(s[0]) { SplitTrimLeft(s[1..]); }
  }

  lemma {:induction false} SplitTrimRight(s: string)
    ensures Fields(TrimRight(s)) == Fields(s)
  {
    if s != [] && IsSpace(s[|s| - 1]) {
      SplitTrimRight(s[..|s| - 1]);
      SplitDropsTrailing(s[..|s| - 1], s[|s| - 1], IsSpace);
      assert s[..|s| - 1] + [s[|s| - 1]] == s;
    }
  }

  // Outer white space never reaches a token.
  lemma FieldsOfTrimmed(s: string)
    ensures Fields(Trim(s)) == Fields(s)
  {
    SplitTrimLeft(s);
    SplitTrimRight(TrimLeft(s));
  }

  lemma MapCharsCons(c: char, t: string, f: char -> char)
    ensures MapChars([c] + t, f) == [f(c)] + MapChars(t, f)
  {
  }

  lemma MapEachCons(t: string, ts: seq<string>, f: char -> char)
    ensures MapEach([t] + ts, f) == [MapChars(t, f)] + MapEach(ts, f)
  {
    var all := [t] + ts;
    var left, right := MapEach(all, f), [MapChars(t, f)] + MapEach(ts, f);
    assert |left| == |right| && left[0] == right[0];
    forall i | 0 < i < |all| ensures left[i] == right[i] {
      assert all[i] == ts[i - 1];
    }
  }

  lemma MapCharsTail(s: string, f: char -> char)
    requires s != []
    ensures MapChars(s, f) != [] && MapChars(s, f)[0] == f(s[0]) && MapChars(s, f)[1..] == MapChars(s[1..], f)
  {
  }

  // Rewriting characters and then splitting is splitting first, when the two notions of separator agree.
  lemma {:induction false} SplitMapped(s: string, f: char -> char, sep: char -> bool, sepAfter: char -> bool)
    requires forall c | c in s :: sepAfter(f(c)) <==> sep(c)
    ensures Split(MapChars(s, f), sepAfter) == MapEach(Split(s, sep), f)
  {
    if s != [] {
      var c, rest := s[0], Split(s[1..], sep);
      SplitMapped(s[1..], f, sep, sepAfter);
      MapCharsTail(s, f);
      assert c in s && (|s| > 1 ==> s[1] in s);
      if !sep(c) {
        if |s| == 1 || sep(s[1]) {
          MapEachCons([c], rest, f);
          assert MapChars([c], f) == [f(c)];
        } else {
          MapEachCons([c] + rest[0], rest[1..], f);
          MapEachCons(rest[0], rest[1..], f);
          MapCharsCons(c, rest[0], f);
          assert [rest[0]] + rest[1..] == rest;
        }
      }
    }
  }

  lemma {:induction false} SplitAgrees(s: string, sep: char -> bool, sep': char -> bool)
    requires forall c | c in s :: sep(c) <==> sep'(c)
    ensures Split(s, sep) == Split(s, sep')
  {
    if s != [] { SplitAgrees(s[1..], sep, sep'); }
  }

  // Gluing the tokens of a finer split with a separator of a coarser one leaves the coarser split unchanged.
  lemma {:induction false} SplitGlued(s: string, fine: char -> bool, coarse: char -> bool, glue: char)
    requires coarse(glue) && forall c | c in s && fine(c) :: coarse(c)
    ensures Split(Join(Split(s, fine), [glue]), coarse) == Split(s, coarse)
  {
    if s != [] {
      SplitGlued(s[1..], fine, coarse, glue);
      var rest := Split(s[1..], fine);
      var j, k := Join(Split(s, fine), [glue]), Join(rest, [glue]);
      if fine(s[0]) {
        assert j == k;
      } else if |s| == 1 || fine(s[1]) {
        if rest == [] {
          assert j == [s[0]];
        } else {
          assert j == [s[0]] + ([glue] + k);
          assert j[1..][1..] == k;
        }
      } else {
        assert j == [s[0]] + k;
        assert j[1..] == k;
      }
    }
  }

  ghost predicate Solid(t: string, sep: char -> bool) {
    t != [] && forall c | c in t :: !sep(c)
  }

  lemma {:induction false} SplitIsSolid(s: string, sep: char -> bool)
    ensures forall t | t in Split(s, sep) :: Solid(t, sep) && forall c | c in t :: c in s
  {
    if s != [] {
      SplitIsSolid(s[1..], sep);
      var rest := Split(s[1..], sep);
      if !sep(s[0]) { HeadIsSolid(s, rest, sep); }
    }
  }

  lemma HeadIsSolid(s: string, rest: seq<string>, sep: char -> bool)
    requires s != [] && !sep(s[0]) && rest == Split(s[1..], sep)
    requires forall t | t in rest :: Solid(t, sep) && forall c | c in t :: c in s[1..]
    ensures forall t | t in Split(s, sep) :: Solid(t, sep) && forall c | c in t :: c in s
  {
    var ts := Split(s, sep);
    var joins := |s| > 1 && !sep(s[1]);
    assert joins ==> rest[0] in rest;
    var head := if joins then [s[0]] + rest[0] else [s[0]];
    assert ts == [head] + if joins then rest[1..] else rest;
    assert Solid(head, sep) && forall c | c in head :: c in s;
    forall t | t in ts ensures Solid(t, sep) && forall c | c in t :: c in s {
      assert t == head || t in rest;
    }
  }

  lemma {:induction false} SplitOfToken(t: string, tail: string, sep: char -> bool)
    requires Solid(t, sep) && (tail == [] || sep(tail[0]))
    ensures Split(t + tail, sep) == [t] + Split(tail, sep)
  {
    var u := t + tail;
    assert u[1..] == t[1..] + tail && t[0] in t;
    if |t| > 1 {
      assert t[1] in t && u[1] == t[1];
      SplitOfToken(t[1..], tail, sep);
      assert Split(u[1..], sep)[1..] == Split(tail, sep);
      assert [t[0]] + t[1..] == t;
    } else {
      assert u[1..] == tail && t == [u[0]];
    }
  }

  // Tokens survive being joined and split again.
  lemma {:induction false} SplitJoined(ts: seq<string>, sep: char -> bool, glue: char)
    requires sep(glue) && forall t | t in ts :: Solid(t, sep)
    ensures Split(Join(ts, [glue]), sep) == ts
  {
    if |ts| == 1 {
      SplitOfToken(ts[0], [], sep);
      assert ts[0] + [] == ts[0];
    } else if |ts| > 1 {
      var tail := [glue] + Join(ts[1..], [glue]);
      SplitJoined(ts[1..], sep, glue);
      SplitOfToken(ts[0], tail, sep);
      assert tail[1..] == Join(ts[1..], [glue]);
      assert Join(ts, [glue]) == ts[0] + tail;
    }
  }

  lemma {:induction false} MapJoined(ts: seq<string>, glue: string, f: char -> char)
    ensures MapChars(Join(ts, glue), f) == Join(MapEach(ts, f), MapChars(glue, f))
  {
    if |ts| > 1 {
      MapJoined(ts[1..], glue, f);
      assert MapEach(ts, f)[1..] == MapEach(ts[1..], f);
    }
  }

  // A character that is no separator is in some token.
  lemma {:induction false} SplitKeeps(s: string, i: nat, sep: char -> bool)
    requires i < |s| && !sep(s[i])
    ensures exists t | t in Split(s, sep) :: s[i] in t
  {
    var ts := Split(s, sep);
    if i == 0 {
      assert ts[0] in ts;
    } else {
      SplitKeeps(s[1..], i - 1, sep);
      var rest := Split(s[1..], sep);
      var t :| t in rest && s[i] in t;
      if !sep(s[0]) && |s| > 1 && !sep(s[1]) && t == rest[0] {
        assert ts[0] in ts;
      } else {
        assert t in ts by {
          var k :| 0 <= k < |rest| && rest[k] == t;
          if sep(s[0]) {
          } else if |s| == 1 || sep(s[1]) {
            assert ts[k + 1] == t;
          } else {
            assert ts[k] == t;
          }
        }
      }
    }
  }

  // What a join is made of.
  lemma {:induction false} JoinHas(ts: seq<string>, glue: string, c: char)
    ensures c in Join(ts, glue) ==> c in glue || exists t | t in ts :: c in t
    ensures (exists t | t in ts :: c in t) ==> c in Join(ts, glue)
  {
    if |ts| == 1 {
      assert ts[0] in ts;
    } else if |ts| > 1 {
      JoinHas(ts[1..], glue, c);
      assert ts == [ts[0]] + ts[1..];
      assert ts[0] in ts;
    }
  }
}
