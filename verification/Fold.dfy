/**
 Accent-insensitive search: what foldQuery computes in Go and what the expression built by foldExpr
 computes in the database, whose own lower-casing is ASCII-only.
 */
module Fold {
  import opened Text

  datatype Pair = Pair(from: char, to: char)

  const A_FOLD: seq<Pair> := [
    Pair('Á', 'a'), Pair('á', 'a'), Pair('À', 'a'), Pair('à', 'a'), Pair('Â', 'a'), Pair('â', 'a'),
    Pair('Ã', 'a'), Pair('ã', 'a'), Pair('Ä', 'a'), Pair('ä', 'a')
  ]
  const E_FOLD: seq<Pair> := [
    Pair('É', 'e'), Pair('é', 'e'), Pair('È', 'e'), Pair('è', 'e'), Pair('Ê', 'e'), Pair('ê', 'e'),
    Pair('Ë', 'e'), Pair('ë', 'e')
  ]
  const I_FOLD: seq<Pair> := [
    Pair('Í', 'i'), Pair('í', 'i'), Pair('Ì', 'i'), Pair('ì', 'i'), Pair('Î', 'i'), Pair('î', 'i'),
    Pair('Ï', 'i'), Pair('ï', 'i')
  ]
  const O_FOLD: seq<Pair> := [
    Pair('Ó', 'o'), Pair('ó', 'o'), Pair('Ò', 'o'), Pair('ò', 'o'), Pair('Ô', 'o'), Pair('ô', 'o'),
    Pair('Õ', 'o'), Pair('õ', 'o'), Pair('Ö', 'o'), Pair('ö', 'o')
  ]
  const U_FOLD: seq<Pair> := [
    Pair('Ú', 'u'), Pair('ú', 'u'), Pair('Ù', 'u'), Pair('ù', 'u'), Pair('Û', 'u'), Pair('û', 'u'),
    Pair('Ü', 'u'), Pair('ü', 'u')
  ]
  const CN_FOLD: seq<Pair> := [Pair('Ç', 'c'), Pair('ç', 'c'), Pair('Ñ', 'n'), Pair('ñ', 'n')]

  const ACCENT_FOLD: seq<Pair> := A_FOLD + E_FOLD + I_FOLD + O_FOLD + U_FOLD + CN_FOLD

  // ----- One replacement after another -----

  // Replacing every occurrence of one character.
  function ReplaceAll(s: string, p: Pair): string { MapChars(s, c => if c == p.from then p.to else c) }

  function InTurn(s: string, table: seq<Pair>): string {
    if table == [] then s else ReplaceAll(InTurn(s, table[..|table| - 1]), table[|table| - 1])
  }

  // ----- All at once -----

  function Lookup(table: seq<Pair>, c: char): char {
    if table == [] then c
    else if c == table[0].from then table[0].to
    else Lookup(table[1..], c)
  }

  predicate Listed(table: seq<Pair>, c: char) { exists i | 0 <= i < |table| :: table[i].from == c }

  // Accented capitals go to plain lower-case letters, each followed by its lower-case form going to
  // the same.
  predicate FoldsAccents(table: seq<Pair>) {
    |table| % 2 == 0 && forall k | 0 <= k < |table| / 2 :: Cased(table, k)
  }

  predicate Cased(table: seq<Pair>, k: nat)
    requires 2 * k + 1 < |table|
  {
    && Latin1Upper(table[2 * k].from) && AsciiLower(table[2 * k].to)
    && table[2 * k + 1] == Pair(LowerChar(table[2 * k].from), table[2 * k].to)
  }

  type AccentTable = t: seq<Pair> | FoldsAccents(t) witness []

  lemma TheTableFoldsAccents()
    ensures FoldsAccents(ACCENT_FOLD)
  {
    FoldsA();
    FoldsE();
    FoldsI();
    FoldsO();
    FoldsU();
    FoldsCN();
    AllFold(A_FOLD, E_FOLD, I_FOLD, O_FOLD, U_FOLD, CN_FOLD);
  }

  lemma FoldsA()
    ensures FoldsAccents(A_FOLD)
  {
    assert Cased(A_FOLD, 0) && Cased(A_FOLD, 1) && Cased(A_FOLD, 2) && Cased(A_FOLD, 3) && Cased(A_FOLD, 4);
  }

  lemma FoldsE()
    ensures FoldsAccents(E_FOLD)
  {
    assert Cased(E_FOLD, 0) && Cased(E_FOLD, 1) && Cased(E_FOLD, 2) && Cased(E_FOLD, 3);
  }

  lemma FoldsI()
    ensures FoldsAccents(I_FOLD)
  {
    assert Cased(I_FOLD, 0) && Cased(I_FOLD, 1) && Cased(I_FOLD, 2) && Cased(I_FOLD, 3);
  }

  lemma FoldsO()
    ensures FoldsAccents(O_FOLD)
  {
    assert Cased(O_FOLD, 0) && Cased(O_FOLD, 1) && Cased(O_FOLD, 2) && Cased(O_FOLD, 3) && Cased(O_FOLD, 4);
  }

  lemma FoldsU()
    ensures FoldsAccents(U_FOLD)
  {
    assert Cased(U_FOLD, 0) && Cased(U_FOLD, 1) && Cased(U_FOLD, 2) && Cased(U_FOLD, 3);
  }

  lemma FoldsCN()
    ensures FoldsAccents(CN_FOLD)
  {
    assert Cased(CN_FOLD, 0) && Cased(CN_FOLD, 1);
  }

  lemma AllFold(a: seq<Pair>, e: seq<Pair>, i: seq<Pair>, o: seq<Pair>, u: seq<Pair>, cn: seq<Pair>)
    requires FoldsAccents(a) && FoldsAccents(e) && FoldsAccents(i) && FoldsAccents(o) && FoldsAccents(u) && FoldsAccents(cn)
    ensures FoldsAccents(a + e + i + o + u + cn)
  {
    BothFold(a, e);
    BothFold(a + e, i);
    BothFold(a + e + i, o);
    BothFold(a + e + i + o, u);
    BothFold(a + e + i + o + u, cn);
  }

  lemma BothFold(a: seq<Pair>, b: seq<Pair>)
    requires FoldsAccents(a) && FoldsAccents(b)
    ensures FoldsAccents(a + b)
  {
    forall k | 0 <= k < |a + b| / 2 ensures Cased(a + b, k) {
      if k < |a| / 2 {
        assert Cased(a, k);
      } else {
        assert Cased(b, k - |a| / 2);
      }
    }
  }

  lemma ListedIsLatin(table: AccentTable, c: char)
    ensures Listed(table, c) ==> Latin1Upper(c) || Latin1Lower(c)
  {
    if i :| 0 <= i < |table| && table[i].from == c { assert Cased(table, i / 2); }
  }

  lemma Entries(table: AccentTable, i: nat)
    requires i < |table|
    ensures AsciiLower(table[i].to) && !Listed(table, table[i].to)
  {
    assert Cased(table, i / 2);
    ListedIsLatin(table, table[i].to);
  }

  lemma {:induction false} LookupListed(table: seq<Pair>, c: char) returns (i: nat)
    requires Listed(table, c)
    ensures i < |table| && table[i].from == c && Lookup(table, c) == table[i].to
  {
    if table[0].from == c {
      i := 0;
    } else {
      var k :| 0 <= k < |table| && table[k].from == c;
      assert table[1..][k - 1].from == c;
      i := LookupListed(table[1..], c);
      i := i + 1;
    }
  }

  lemma {:induction false} LookupUnlisted(table: seq<Pair>, c: char)
    ensures !Listed(table, c) ==> Lookup(table, c) == c
  {
    if table != [] {
      LookupUnlisted(table[1..], c);
      assert Listed(table[1..], c) ==> Listed(table, c) by {
        if Listed(table[1..], c) {
          var i :| 0 <= i < |table[1..]| && table[1..][i].from == c;
          assert table[i + 1].from == c;
        }
      }
      assert table[0].from == c ==> Listed(table, c);
    }
  }

  lemma {:induction false} LookupLast(table: seq<Pair>, c: char)
    requires table != []
    requires forall i, j | 0 <= i < j < |table| :: table[i].to != table[j].from
    ensures var init, last := table[..|table| - 1], table[|table| - 1];
            Lookup(table, c) == if Lookup(init, c) == last.from then last.to else Lookup(init, c)
  {
    if |table| > 1 {
      var tail, init := table[1..], table[..|table| - 1];
      LookupLast(tail, c);
      assert tail[..|tail| - 1] == init[1..];
    }
  }

  // No replacement touches what an earlier one wrote, so doing them in turn is doing them at once.
  lemma {:induction false} InTurnIsAtOnce(s: string, table: seq<Pair>)
    requires forall i, j | 0 <= i < j < |table| :: table[i].to != table[j].from
    ensures InTurn(s, table) == MapChars(s, c => Lookup(table, c))
  {
    if table == [] {
      assert MapChars(s, c => Lookup(table, c)) == s;
    } else {
      InTurnIsAtOnce(s, table[..|table| - 1]);
      forall i | 0 <= i < |s| ensures InTurn(s, table)[i] == Lookup(table, s[i]) {
        LookupLast(table, s[i]);
      }
    }
  }

  lemma WritesAreKept(table: AccentTable)
    ensures forall i, j | 0 <= i < j < |table| :: table[i].to != table[j].from
  {
    forall i, j | 0 <= i < j < |table| ensures table[i].to != table[j].from {
      Entries(table, i);
      assert Listed(table, table[j].from);
    }
  }

  // ----- The two sides -----

  function LowerAscii(c: char): char { if AsciiUpper(c) then c + ' ' else c }

  // One character of the query, and of a value folded by the database.
  function QueryChar(table: AccentTable, c: char): char { Lookup(table, LowerChar(c)) }

  function StoredChar(table: AccentTable, c: char): char { Lookup(table, LowerAscii(c)) }

  function QueryChars(table: AccentTable, s: string): string { MapChars(s, c => QueryChar(table, c)) }

  function FoldedQuery(table: AccentTable, q: string): string { QueryChars(table, Trim(q)) }

  function FoldedStored(table: AccentTable, s: string): string { MapChars(s, c => StoredChar(table, c)) }

  method FoldQuery(q: string, accentFold: AccentTable) returns (r: string)
    ensures r == FoldedQuery(accentFold, q)
  {
    WritesAreKept(accentFold);
    var lower := ToLower(Trim(q));
    r := lower;
    for i := 0 to |accentFold|
      invariant r == InTurn(lower, accentFold[..i])
    {
      assert accentFold[..i + 1][..i] == accentFold[..i];
      r := ReplaceAll(r, accentFold[i]);
    }
    assert accentFold[..|accentFold|] == accentFold;
    InTurnIsAtOnce(lower, accentFold);
  }

  // The value of the expression foldExpr builds, on a stored string.
  method FoldExpr(s: string, accentFold: AccentTable) returns (r: string)
    ensures r == FoldedStored(accentFold, s)
  {
    WritesAreKept(accentFold);
    var lower := MapChars(s, LowerAscii);
    r := lower;
    for i := 0 to |accentFold|
      invariant r == InTurn(lower, accentFold[..i])
    {
      assert accentFold[..i + 1][..i] == accentFold[..i];
      r := ReplaceAll(r, accentFold[i]);
    }
    assert accentFold[..|accentFold|] == accentFold;
    InTurnIsAtOnce(lower, accentFold);
  }

  // ----- Laws of one character -----

  // Both cases of a letter are listed or neither is, and fold alike.
  lemma {:induction false} BothCases(table: AccentTable, c: char)
    requires Latin1Upper(c)
    ensures Listed(table, c) <==> Listed(table, LowerChar(c))
    ensures Listed(table, c) ==> Lookup(table, c) == Lookup(table, LowerChar(c))
  {
    if table != [] {
      assert Cased(table, 0);
      var rest := table[2..];
      forall k | 0 <= k < |rest| / 2 ensures Cased(rest, k) { assert Cased(table, k + 1); }
      BothCases(rest, c);
      ListedInRest(table, c);
      ListedInRest(table, LowerChar(c));
      assert table[1..][1..] == rest;
    }
  }

  lemma ListedInRest(table: seq<Pair>, c: char)
    requires |table| >= 2
    ensures Listed(table, c) <==> table[0].from == c || table[1].from == c || Listed(table[2..], c)
  {
    assert forall i | 0 <= i < |table[2..]| :: table[2..][i] == table[i + 2];
    assert forall i | 2 <= i < |table| :: table[i] == table[2..][i - 2];
  }

  lemma FoldIsSettled(table: AccentTable, c: char)
    ensures QueryChar(table, QueryChar(table, c)) == QueryChar(table, c)
    ensures IsSpace(QueryChar(table, c)) <==> IsSpace(c)
  {
    var l := LowerChar(c);
    CaseLaws(c, c);
    LookupUnlisted(table, l);
    ListedIsLatin(table, l);
    if Listed(table, l) {
      var i := LookupListed(table, l);
      Entries(table, i);
      LookupUnlisted(table, table[i].to);
    }
  }

  // The letters on which the two sides disagree: capitals the table does not list.
  predicate Unlisted(table: AccentTable, c: char) { (Latin1Upper(c) || c == 'Ÿ') && !Listed(table, c) }

  lemma SidesAgreeIff(table: AccentTable, c: char)
    ensures StoredChar(table, c) == QueryChar(table, c) <==> !Unlisted(table, c)
  {
    if Latin1Upper(c) {
      BothCases(table, c);
      LookupUnlisted(table, c);
      LookupUnlisted(table, LowerChar(c));
    } else if c == 'Ÿ' {
      ListedIsLatin(table, c);
      ListedIsLatin(table, LowerChar(c));
      LookupUnlisted(table, c);
      LookupUnlisted(table, LowerChar(c));
    }
  }

  // ----- Laws of the search -----

  lemma FoldedIsTrim(table: AccentTable, s: string)
    ensures Trim(FoldedQuery(table, s)) == FoldedQuery(table, s)
  {
    var from, to := TrimIs(s);
    var r := FoldedQuery(table, s);
    if r != "" {
      FoldIsSettled(table, s[from]);
      FoldIsSettled(table, s[to - 1]);
      assert r[0] == QueryChar(table, s[from]) && r[|r| - 1] == QueryChar(table, s[to - 1]);
    }
    TrimmedIsTight(r);
  }

  // Folding a folded query changes nothing.
  lemma FoldIsIdempotent(table: AccentTable, q: string)
    ensures FoldedQuery(table, FoldedQuery(table, q)) == FoldedQuery(table, q)
  {
    FoldedIsTrim(table, q);
    var r := FoldedQuery(table, q);
    forall i | 0 <= i < |r| ensures FoldedQuery(table, r)[i] == r[i] {
      FoldIsSettled(table, Trim(q)[i]);
    }
  }

  // The two sides fold a string alike exactly when it has no outer whitespace and no capital the
  // table leaves out (Å, Æ, Ð, Ø, Ý, Þ and Ÿ, for the table in force).
  lemma SidesAgreeOnStringsIff(table: AccentTable, s: string)
    ensures FoldedQuery(table, s) == FoldedStored(table, s)
            <==> Trim(s) == s && forall i | 0 <= i < |s| :: !Unlisted(table, s[i])
  {
    var q, e := FoldedQuery(table, s), FoldedStored(table, s);
    var from, to := TrimIs(s);
    if q == e {
      assert |q| == |s|;
      forall i | 0 <= i < |s| ensures !Unlisted(table, s[i]) {
        assert q[i] == e[i];
        SidesAgreeIff(table, s[i]);
      }
    }
    if Trim(s) == s && forall i | 0 <= i < |s| :: !Unlisted(table, s[i]) {
      forall i | 0 <= i < |s| ensures q[i] == e[i] { SidesAgreeIff(table, s[i]); }
    }
  }

  // t is q up to case and accents.
  predicate SameLetters(table: AccentTable, t: string, q: string) { QueryChars(table, t) == QueryChars(table, q) }

  predicate SpelledAt(table: AccentTable, name: string, q: string, i: nat) {
    i + |q| <= |name| && SameLetters(table, name[i..i + |q|], q)
  }

  /**
   The search finds exactly the names that contain the query up to case and accents: the folded query
   occurs in the folded name if and only if some stretch of the name spells the trimmed query.
   */
  lemma SearchFindsIff(table: AccentTable, q: string, name: string)
    ensures Contains(FoldedQuery(table, name), FoldedQuery(table, q)) <==> exists i: nat :: SpelledAt(table, name, Trim(q), i)
  {
    var from, to := TrimIs(name);
    if Contains(FoldedQuery(table, name), FoldedQuery(table, q)) { FoundIsSpelled(table, Trim(q), name, from, to); }
    if i: nat :| SpelledAt(table, name, Trim(q), i) { TermIsFound(table, q, name, i, from, to); }
  }

  lemma TermIsFound(table: AccentTable, q: string, name: string, i: nat, from: nat, to: nat)
    requires from <= to <= |name| && (forall k | 0 <= k < from || to <= k < |name| :: IsSpace(name[k]))
    requires SpelledAt(table, name, Trim(q), i)
    ensures Contains(QueryChars(table, name[from..to]), FoldedQuery(table, q))
  {
    var a, b := TrimIs(q);
    SpelledIsFound(table, Trim(q), name, i, from, to);
  }

  lemma FoundIsSpelled(table: AccentTable, w: string, name: string, from: nat, to: nat)
    requires from <= to <= |name| && Contains(QueryChars(table, name[from..to]), QueryChars(table, w))
    ensures exists i: nat :: SpelledAt(table, name, w, i)
  {
    var folded := QueryChars(table, name[from..to]);
    var i :| 0 <= i <= |folded| && OccursAt(folded, QueryChars(table, w), i);
    SliceFolds(table, name, from, to, i, |w|);
    assert SpelledAt(table, name, w, from + i);
  }

  lemma SpelledIsFound(table: AccentTable, w: string, name: string, i: nat, from: nat, to: nat)
    requires from <= to <= |name|
    requires forall k | 0 <= k < from || to <= k < |name| :: IsSpace(name[k])
    requires w != "" ==> !IsSpace(w[0]) && !IsSpace(w[|w| - 1])
    requires SpelledAt(table, name, w, i)
    ensures Contains(QueryChars(table, name[from..to]), QueryChars(table, w))
  {
    if w == "" {
      assert OccursAt(QueryChars(table, name[from..to]), QueryChars(table, w), 0);
    } else {
      FoundInside(table, w, name, i, from, to);
    }
  }

  lemma SliceFolds(table: AccentTable, name: string, from: nat, to: nat, i: nat, n: nat)
    requires from <= to <= |name| && from + i + n <= to
    ensures QueryChars(table, name[from..to])[i..i + n] == QueryChars(table, name[from + i..from + i + n])
  {
    var inner, outer := name[from..to][i..i + n], name[from + i..from + i + n];
    assert |inner| == n == |outer|;
    assert forall k | 0 <= k < n :: inner[k] == outer[k];
    assert inner == outer;
    var left, right := QueryChars(table, name[from..to])[i..i + n], QueryChars(table, outer);
    assert forall k | 0 <= k < n :: left[k] == QueryChar(table, inner[k]) && right[k] == QueryChar(table, outer[k]);
    assert left == right;
  }

  // A stretch that spells a text without outer spaces has none itself.
  lemma NoSpaceAtEnds(table: AccentTable, t: string, q: string)
    requires SameLetters(table, t, q) && q != "" && !IsSpace(q[0]) && !IsSpace(q[|q| - 1])
    ensures |t| == |q| && !IsSpace(t[0]) && !IsSpace(t[|t| - 1])
  {
    var folded := QueryChars(table, t);
    assert |folded| == |t| && |QueryChars(table, q)| == |q|;
    assert folded[0] == QueryChar(table, t[0]) == QueryChar(table, q[0]);
    assert folded[|t| - 1] == QueryChar(table, t[|t| - 1]) == QueryChar(table, q[|q| - 1]);
    FoldIsSettled(table, t[0]);
    FoldIsSettled(table, q[0]);
    FoldIsSettled(table, t[|t| - 1]);
    FoldIsSettled(table, q[|q| - 1]);
  }

  // So it lies inside the trimmed name.
  lemma FoundInside(table: AccentTable, w: string, name: string, i: nat, from: nat, to: nat)
    requires from <= to <= |name|
    requires forall k | 0 <= k < from || to <= k < |name| :: IsSpace(name[k])
    requires w != "" && !IsSpace(w[0]) && !IsSpace(w[|w| - 1])
    requires SpelledAt(table, name, w, i)
    ensures Contains(QueryChars(table, name[from..to]), QueryChars(table, w))
  {
    var n := |w|;
    EndsInside(table, w, name, i, from, to);
    SliceFolds(table, name, from, to, i - from, n);
    assert OccursAt(QueryChars(table, name[from..to]), QueryChars(table, w), i - from);
  }

  lemma EndsInside(table: AccentTable, w: string, name: string, i: nat, from: nat, to: nat)
    requires from <= to <= |name|
    requires forall k | 0 <= k < from || to <= k < |name| :: IsSpace(name[k])
    requires w != "" && !IsSpace(w[0]) && !IsSpace(w[|w| - 1])
    requires SpelledAt(table, name, w, i)
    ensures from <= i && i + |w| <= to
  {
    var t := name[i..i + |w|];
    NoSpaceAtEnds(table, t, w);
    assert t[0] == name[i] && t[|w| - 1] == name[i + |w| - 1];
  }

  // ----- Searching a field the database folds -----

  // A stored letter meets a query letter exactly when both fold alike in the query and the stored one is
  // no capital the table leaves out.
  lemma StoredMeetsIff(table: AccentTable, c: char, d: char)
    ensures StoredChar(table, c) == QueryChar(table, d) <==> !Unlisted(table, c) && QueryChar(table, c) == QueryChar(table, d)
  {
    SidesAgreeIff(table, c);
    if Unlisted(table, c) {
      LookupUnlisted(table, c);
      NeverACapital(table, d);
    }
  }

  lemma NeverACapital(table: AccentTable, d: char)
    ensures !Latin1Upper(QueryChar(table, d)) && QueryChar(table, d) != 'Ÿ'
  {
    var l := LowerChar(d);
    if Listed(table, l) {
      var i := LookupListed(table, l);
      Entries(table, i);
    } else {
      LookupUnlisted(table, l);
    }
  }

  // The stretch of the value at i spells w, without a capital the table leaves out.
  predicate MetAt(table: AccentTable, value: string, w: string, i: nat) {
    SpelledAt(table, value, w, i) && forall k | i <= k < i + |w| :: !Unlisted(table, value[k])
  }

  lemma OccursIff(table: AccentTable, value: string, w: string, i: nat)
    ensures OccursAt(FoldedStored(table, value), QueryChars(table, w), i) <==> MetAt(table, value, w, i)
  {
    var stored, needle := FoldedStored(table, value), QueryChars(table, w);
    if i + |w| <= |value| {
      forall k | 0 <= k < |w| ensures stored[i + k] == needle[k] <==> Alike(table, value, w, i, k) {
        StoredMeetsIff(table, value[i + k], w[k]);
      }
      SliceIff(stored, needle, i);
      AllAlike(table, value, w, i);
    }
  }

  lemma SliceIff(s: string, sub: string, i: nat)
    requires i + |sub| <= |s|
    ensures OccursAt(s, sub, i) <==> forall k | 0 <= k < |sub| :: s[i + k] == sub[k]
  {
    if OccursAt(s, sub, i) {
      forall k | 0 <= k < |sub| ensures s[i + k] == sub[k] { assert s[i..i + |sub|][k] == sub[k]; }
    }
  }

  predicate Alike(table: AccentTable, value: string, w: string, i: nat, k: nat)
    requires i + |w| <= |value| && k < |w|
  {
    !Unlisted(table, value[i + k]) && QueryChar(table, value[i + k]) == QueryChar(table, w[k])
  }

  lemma AllAlike(table: AccentTable, value: string, w: string, i: nat)
    requires i + |w| <= |value|
    ensures MetAt(table, value, w, i) <==> forall k | 0 <= k < |w| :: Alike(table, value, w, i, k)
  {
    var t := value[i..i + |w|];
    if MetAt(table, value, w, i) {
      forall k | 0 <= k < |w| ensures Alike(table, value, w, i, k) {
        assert t[k] == value[i + k] && QueryChars(table, t)[k] == QueryChars(table, w)[k];
      }
    }
    if forall k | 0 <= k < |w| :: Alike(table, value, w, i, k) {
      forall k | 0 <= k < |w| ensures QueryChars(table, t)[k] == QueryChars(table, w)[k] { assert Alike(table, value, w, i, k); }
      assert QueryChars(table, t) == QueryChars(table, w);
      forall k | i <= k < i + |w| ensures !Unlisted(table, value[k]) { assert Alike(table, value, w, i, k - i); }
    }
  }

  /**
   Over a field folded by the database, the search finds exactly the values with a stretch that spells
   the trimmed query up to case and accents and holds none of the capitals the table leaves out.
   */
  lemma StoredSearchFindsIff(table: AccentTable, q: string, value: string)
    ensures Contains(FoldedStored(table, value), FoldedQuery(table, q)) <==> exists i: nat :: MetAt(table, value, Trim(q), i)
  {
    var stored, needle := FoldedStored(table, value), FoldedQuery(table, q);
    if i :| 0 <= i <= |stored| && OccursAt(stored, needle, i) { OccursIff(table, value, Trim(q), i); }
    if i: nat :| MetAt(table, value, Trim(q), i) {
      OccursIff(table, value, Trim(q), i);
      assert OccursAt(stored, needle, i);
    }
  }

  // ----- The base of each letter -----

  lemma {:induction false} LookupBoth(a: seq<Pair>, b: seq<Pair>, c: char)
    ensures Lookup(a + b, c) == if Listed(a, c) then Lookup(a, c) else Lookup(b, c)
    ensures Listed(a + b, c) <==> Listed(a, c) || Listed(b, c)
  {
    if a == [] {
      assert a + b == b;
    } else {
      LookupBoth(a[1..], b, c);
      assert (a + b)[0] == a[0] && (a + b)[1..] == a[1..] + b;
      ListedHead(a, c);
      ListedHead(a + b, c);
    }
  }

  lemma ListedHead(a: seq<Pair>, c: char)
    requires a != []
    ensures Listed(a, c) <==> a[0].from == c || Listed(a[1..], c)
  {
    if i :| 0 < i < |a| && a[i].from == c { assert a[1..][i - 1].from == c; }
    if i :| 0 <= i < |a[1..]| && a[1..][i].from == c { assert a[i + 1].from == c; }
  }

  lemma ABase(c: char)
    ensures Listed(A_FOLD, c) <==> c in {'Á', 'á', 'À', 'à', 'Â', 'â', 'Ã', 'ã', 'Ä', 'ä'}
    ensures Listed(A_FOLD, c) ==> Lookup(A_FOLD, c) == 'a'
  {
    if Listed(A_FOLD, c) { var i := LookupListed(A_FOLD, c); }
    if c in {'Á', 'á', 'À', 'à', 'Â', 'â', 'Ã', 'ã', 'Ä', 'ä'} { AListed(c); }
  }

  lemma AListed(c: char)
    requires c in {'Á', 'á', 'À', 'à', 'Â', 'â', 'Ã', 'ã', 'Ä', 'ä'}
    ensures Listed(A_FOLD, c)
  {
    assert A_FOLD[0].from == 'Á' && A_FOLD[1].from == 'á' && A_FOLD[2].from == 'À' && A_FOLD[3].from == 'à' && A_FOLD[4].from == 'Â'
        && A_FOLD[5].from == 'â' && A_FOLD[6].from == 'Ã' && A_FOLD[7].from == 'ã' && A_FOLD[8].from == 'Ä' && A_FOLD[9].from == 'ä';
  }

  lemma EBase(c: char)
    ensures Listed(E_FOLD, c) <==> c in {'É', 'é', 'È', 'è', 'Ê', 'ê', 'Ë', 'ë'}
    ensures Listed(E_FOLD, c) ==> Lookup(E_FOLD, c) == 'e'
  {
    if Listed(E_FOLD, c) { var i := LookupListed(E_FOLD, c); }
    if c in {'É', 'é', 'È', 'è', 'Ê', 'ê', 'Ë', 'ë'} { EListed(c); }
  }

  lemma EListed(c: char)
    requires c in {'É', 'é', 'È', 'è', 'Ê', 'ê', 'Ë', 'ë'}
    ensures Listed(E_FOLD, c)
  {
    assert E_FOLD[0].from == 'É' && E_FOLD[1].from == 'é' && E_FOLD[2].from == 'È' && E_FOLD[3].from == 'è'
        && E_FOLD[4].from == 'Ê' && E_FOLD[5].from == 'ê' && E_FOLD[6].from == 'Ë' && E_FOLD[7].from == 'ë';
  }

  lemma IBase(c: char)
    ensures Listed(I_FOLD, c) <==> c in {'Í', 'í', 'Ì', 'ì', 'Î', 'î', 'Ï', 'ï'}
    ensures Listed(I_FOLD, c) ==> Lookup(I_FOLD, c) == 'i'
  {
    if Listed(I_FOLD, c) { var i := LookupListed(I_FOLD, c); }
    if c in {'Í', 'í', 'Ì', 'ì', 'Î', 'î', 'Ï', 'ï'} { IListed(c); }
  }

  lemma IListed(c: char)
    requires c in {'Í', 'í', 'Ì', 'ì', 'Î', 'î', 'Ï', 'ï'}
    ensures Listed(I_FOLD, c)
  {
    assert I_FOLD[0].from == 'Í' && I_FOLD[1].from == 'í' && I_FOLD[2].from == 'Ì' && I_FOLD[3].from == 'ì'
        && I_FOLD[4].from == 'Î' && I_FOLD[5].from == 'î' && I_FOLD[6].from == 'Ï' && I_FOLD[7].from == 'ï';
  }

  lemma OBase(c: char)
    ensures Listed(O_FOLD, c) <==> c in {'Ó', 'ó', 'Ò', 'ò', 'Ô', 'ô', 'Õ', 'õ', 'Ö', 'ö'}
    ensures Listed(O_FOLD, c) ==> Lookup(O_FOLD, c) == 'o'
  {
    if Listed(O_FOLD, c) { var i := LookupListed(O_FOLD, c); }
    if c in {'Ó', 'ó', 'Ò', 'ò', 'Ô', 'ô', 'Õ', 'õ', 'Ö', 'ö'} { OListed(c); }
  }

  lemma OListed(c: char)
    requires c in {'Ó', 'ó', 'Ò', 'ò', 'Ô', 'ô', 'Õ', 'õ', 'Ö', 'ö'}
    ensures Listed(O_FOLD, c)
  {
    assert O_FOLD[0].from == 'Ó' && O_FOLD[1].from == 'ó' && O_FOLD[2].from == 'Ò' && O_FOLD[3].from == 'ò' && O_FOLD[4].from == 'Ô'
        && O_FOLD[5].from == 'ô' && O_FOLD[6].from == 'Õ' && O_FOLD[7].from == 'õ' && O_FOLD[8].from == 'Ö' && O_FOLD[9].from == 'ö';
  }

  lemma UBase(c: char)
    ensures Listed(U_FOLD, c) <==> c in {'Ú', 'ú', 'Ù', 'ù', 'Û', 'û', 'Ü', 'ü'}
    ensures Listed(U_FOLD, c) ==> Lookup(U_FOLD, c) == 'u'
  {
    if Listed(U_FOLD, c) { var i := LookupListed(U_FOLD, c); }
    if c in {'Ú', 'ú', 'Ù', 'ù', 'Û', 'û', 'Ü', 'ü'} { UListed(c); }
  }

  lemma UListed(c: char)
    requires c in {'Ú', 'ú', 'Ù', 'ù', 'Û', 'û', 'Ü', 'ü'}
    ensures Listed(U_FOLD, c)
  {
    assert U_FOLD[0].from == 'Ú' && U_FOLD[1].from == 'ú' && U_FOLD[2].from == 'Ù' && U_FOLD[3].from == 'ù'
        && U_FOLD[4].from == 'Û' && U_FOLD[5].from == 'û' && U_FOLD[6].from == 'Ü' && U_FOLD[7].from == 'ü';
  }

  lemma CnBase(c: char)
    ensures Listed(CN_FOLD, c) <==> c in {'Ç', 'ç', 'Ñ', 'ñ'}
    ensures Listed(CN_FOLD, c) ==> Lookup(CN_FOLD, c) == if c in {'Ç', 'ç'} then 'c' else 'n'
  {
    if Listed(CN_FOLD, c) { var i := LookupListed(CN_FOLD, c); }
    assert CN_FOLD[0].from == 'Ç' && CN_FOLD[1].from == 'ç' && CN_FOLD[2].from == 'Ñ' && CN_FOLD[3].from == 'ñ';
  }

  lemma TheTableInParts(c: char)
    ensures Lookup(ACCENT_FOLD, c) ==
            if Listed(A_FOLD, c) then Lookup(A_FOLD, c) else if Listed(E_FOLD, c) then Lookup(E_FOLD, c)
            else if Listed(I_FOLD, c) then Lookup(I_FOLD, c) else if Listed(O_FOLD, c) then Lookup(O_FOLD, c)
            else if Listed(U_FOLD, c) then Lookup(U_FOLD, c) else Lookup(CN_FOLD, c)
  {
    LookupBoth(A_FOLD + E_FOLD + I_FOLD + O_FOLD + U_FOLD, CN_FOLD, c);
    LookupBoth(A_FOLD + E_FOLD + I_FOLD + O_FOLD, U_FOLD, c);
    LookupBoth(A_FOLD + E_FOLD + I_FOLD, O_FOLD, c);
    LookupBoth(A_FOLD + E_FOLD, I_FOLD, c);
    LookupBoth(A_FOLD, E_FOLD, c);
  }

  // Each accented letter goes to its own base, and no other character goes anywhere.
  lemma BasesAre(c: char)
    ensures Lookup(ACCENT_FOLD, c) ==
            if c in {'Á', 'á', 'À', 'à', 'Â', 'â', 'Ã', 'ã', 'Ä', 'ä'} then 'a'
            else if c in {'É', 'é', 'È', 'è', 'Ê', 'ê', 'Ë', 'ë'} then 'e'
            else if c in {'Í', 'í', 'Ì', 'ì', 'Î', 'î', 'Ï', 'ï'} then 'i'
            else if c in {'Ó', 'ó', 'Ò', 'ò', 'Ô', 'ô', 'Õ', 'õ', 'Ö', 'ö'} then 'o'
            else if c in {'Ú', 'ú', 'Ù', 'ù', 'Û', 'û', 'Ü', 'ü'} then 'u'
            else if c in {'Ç', 'ç'} then 'c'
            else if c in {'Ñ', 'ñ'} then 'n'
            else c
  {
    TheTableInParts(c);
    ABase(c);
    EBase(c);
    IBase(c);
    OBase(c);
    UBase(c);
    CnBase(c);
    LookupUnlisted(CN_FOLD, c);
  }

  // "jose" finds "JOSÉ", in a field folded in Go and in one folded by the database.
  lemma JoseIsFound(table: AccentTable, q: string, name: string)
    requires table == ACCENT_FOLD && q == "jose" && name == "JOSÉ"
    ensures Contains(FoldedQuery(table, name), FoldedQuery(table, q)) && Contains(FoldedStored(table, name), FoldedQuery(table, q))
  {
    JoseFolds(table, q, q);
    JoseFolds(table, name, q);
    assert OccursAt(q, q, 0);
  }

  lemma JoseFolds(table: AccentTable, s: string, plain: string)
    requires table == ACCENT_FOLD && plain == "jose" && (s == plain || s == "JOSÉ")
    ensures FoldedQuery(table, s) == plain && FoldedStored(table, s) == plain
  {
    assert |s| == 4 && s[0] in {'J', 'j'} && s[1] in {'O', 'o'} && s[2] in {'S', 's'} && s[3] in {'É', 'e'};
    TrimmedIsTight(s);
    BasesAre('j');
    BasesAre('o');
    BasesAre('s');
    BasesAre('e');
    BasesAre('é');
    BasesAre('É');
  }
}
