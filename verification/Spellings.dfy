/**
 Which spellings the name keys take for one name, said of the words of the names alone: the tombstone
 key, the node id and the roster key.
 */
module Spellings {
  import opened Text
  import Tombstones
  import Purge
  import Roster

  // ----- Letters and words -----

  predicate Both(a: char, b: char, letters: set<char>) { a in letters && b in letters }

  // Two characters that differ in case or in a Portuguese accent at most.
  predicate SameLetter(a: char, b: char) {
    var x, y := UpperChar(a), UpperChar(b);
    || x == y
    || Both(x, y, {'A', 'Á', 'À', 'Â', 'Ã', 'Ä'}) || Both(x, y, {'E', 'É', 'È', 'Ê', 'Ë'}) || Both(x, y, {'I', 'Í', 'Ì', 'Î', 'Ï'})
    || Both(x, y, {'O', 'Ó', 'Ò', 'Ô', 'Õ', 'Ö'}) || Both(x, y, {'U', 'Ú', 'Ù', 'Û', 'Ü'})
    || Both(x, y, {'C', 'Ç'}) || Both(x, y, {'N', 'Ñ'})
  }

  predicate SameLetters(t: string, u: string) { |t| == |u| && forall i | 0 <= i < |t| :: SameLetter(t[i], u[i]) }

  lemma LettersFold(a: char, b: char)
    ensures Tombstones.FoldChar(a) == Tombstones.FoldChar(b) <==> SameLetter(a, b)
  {
  }

  lemma LettersLoseAccents(a: char, b: char)
    ensures Roster.Unaccented(UpperChar(a)) == Roster.Unaccented(UpperChar(b)) <==> SameLetter(a, b)
  {
  }

  lemma WordsFold(t: string, u: string)
    ensures MapChars(t, Tombstones.FoldChar) == MapChars(u, Tombstones.FoldChar) <==> SameLetters(t, u)
  {
    var k, l := MapChars(t, Tombstones.FoldChar), MapChars(u, Tombstones.FoldChar);
    if |t| == |u| {
      forall i | 0 <= i < |t| ensures k[i] == l[i] <==> SameLetter(t[i], u[i]) { LettersFold(t[i], u[i]); }
    }
  }

  // ----- Words and what stands between them -----

  // gaps[0] words[0] gaps[1] ... words[n - 1] gaps[n]
  function Spaced(gaps: seq<string>, words: seq<string>): string
    requires |gaps| == |words| + 1
  {
    if words == [] then gaps[0] else gaps[0] + (words[0] + Spaced(gaps[1..], words[1..]))
  }

  // Words without a separator, with separators alone between them, at least one between two words.
  ghost predicate Spells(gaps: seq<string>, words: seq<string>, sep: char -> bool) {
    && |gaps| == |words| + 1
    && (forall i | 0 <= i < |gaps| :: forall c | c in gaps[i] :: sep(c))
    && (forall i | 0 < i < |words| :: gaps[i] != "")
    && (forall i | 0 <= i < |words| :: Solid(words[i], sep))
  }

  lemma {:induction false} SplitSkips(gap: string, s: string, sep: char -> bool)
    requires forall c | c in gap :: sep(c)
    ensures Split(gap + s, sep) == Split(s, sep)
  {
    if gap == "" {
      assert gap + s == s;
    } else {
      assert gap[0] in gap && (gap + s)[0] == gap[0] && (gap + s)[1..] == gap[1..] + s;
      SplitSkips(gap[1..], s, sep);
    }
  }

  lemma SpellsRest(gaps: seq<string>, words: seq<string>, sep: char -> bool)
    requires Spells(gaps, words, sep) && words != []
    ensures Spells(gaps[1..], words[1..], sep)
    ensures var tail := Spaced(gaps[1..], words[1..]); tail == [] || sep(tail[0])
  {
    var tail := Spaced(gaps[1..], words[1..]);
    if tail != [] {
      assert gaps[1] != "" ==> tail[0] == gaps[1][0] && gaps[1][0] in gaps[1];
    }
  }

  // The words are what Split finds.
  lemma {:induction false} SplitFindsTheWords(gaps: seq<string>, words: seq<string>, sep: char -> bool)
    requires Spells(gaps, words, sep)
    ensures Split(Spaced(gaps, words), sep) == words
  {
    if words == [] {
      SplitSkips(gaps[0], "", sep);
      assert gaps[0] + "" == gaps[0];
    } else {
      var tail := Spaced(gaps[1..], words[1..]);
      SpellsRest(gaps, words, sep);
      SplitFindsTheWords(gaps[1..], words[1..], sep);
      SplitSkips(gaps[0], words[0] + tail, sep);
      SplitOfToken(words[0], tail, sep);
    }
  }

  // Every string is words with gaps between them.
  lemma {:induction false} EveryStringIsSpaced(s: string, sep: char -> bool) returns (gaps: seq<string>, words: seq<string>)
    ensures Spells(gaps, words, sep) && Spaced(gaps, words) == s
  {
    if s == "" {
      gaps, words := [""], [];
    } else {
      gaps, words := EveryStringIsSpaced(s[1..], sep);
      assert s == [s[0]] + s[1..];
      if sep(s[0]) {
        gaps := LongerGap(s[0], gaps, words, sep);
      } else if gaps[0] == "" && words != [] {
        gaps, words := LongerWord(s[0], gaps, words, sep);
      } else {
        gaps, words := NewWord(s[0], gaps, words, sep);
      }
    }
  }

  lemma LongerGap(c: char, gaps: seq<string>, words: seq<string>, sep: char -> bool) returns (more: seq<string>)
    requires Spells(gaps, words, sep) && sep(c)
    ensures Spells(more, words, sep) && Spaced(more, words) == [c] + Spaced(gaps, words)
  {
    more := [[c] + gaps[0]] + gaps[1..];
    assert more[1..] == gaps[1..];
  }

  lemma LongerWord(c: char, gaps: seq<string>, words: seq<string>, sep: char -> bool) returns (same: seq<string>, more: seq<string>)
    requires Spells(gaps, words, sep) && !sep(c) && gaps[0] == "" && words != []
    ensures Spells(same, more, sep) && Spaced(same, more) == [c] + Spaced(gaps, words)
  {
    var longer := [c] + words[0];
    assert Solid(words[0], sep);
    assert Solid(longer, sep);
    same, more := gaps, [longer] + words[1..];
    assert more[1..] == words[1..];
    assert forall i | 0 < i < |words| :: more[i] == words[i];
    assert gaps[0] + (longer + Spaced(gaps[1..], words[1..])) == [c] + (gaps[0] + (words[0] + Spaced(gaps[1..], words[1..])));
  }

  lemma NewWord(c: char, gaps: seq<string>, words: seq<string>, sep: char -> bool) returns (moreGaps: seq<string>, more: seq<string>)
    requires Spells(gaps, words, sep) && !sep(c) && (gaps[0] != "" || words == [])
    ensures Spells(moreGaps, more, sep) && Spaced(moreGaps, more) == [c] + Spaced(gaps, words)
  {
    moreGaps, more := [""] + gaps, [[c]] + words;
    assert moreGaps[1..] == gaps && more[1..] == words;
  }

  // ----- Tombstone keys -----

  predicate Gap(c: char) { IsSpace(c) || c in {'.', ',', '-', '\'', '`', '"', '/'} }

  // One of these forms, up to case and accents.
  predicate OneOf(t: string, forms: set<string>) { exists w | w in forms :: SameLetters(t, w) }

  predicate BothOneOf(t: string, u: string, forms: set<string>) { OneOf(t, forms) && OneOf(u, forms) }

  // Two forms of one suffix.
  predicate SameSuffix(t: string, u: string) {
    || BothOneOf(t, u, {"JUNIOR", "JUN", "JR"}) || BothOneOf(t, u, {"FILHO", "FO", "FILHA"}) || BothOneOf(t, u, {"NETO", "NETA"})
    || BothOneOf(t, u, {"SOBRINHO", "SOBRINHA"}) || BothOneOf(t, u, {"SEGUNDO", "II"}) || BothOneOf(t, u, {"TERCEIRO", "III"})
  }

  predicate SameWord(t: string, u: string) { SameLetters(t, u) || SameSuffix(t, u) }

  predicate SameName(ts: seq<string>, us: seq<string>) { |ts| == |us| && forall i | 0 <= i < |ts| :: SameWord(ts[i], us[i]) }

  // A suffix form is all capitals, so it is the fold of what it is one of.
  lemma FoldedForm(t: string, w: string)
    requires Tombstones.Word(w)
    ensures SameLetters(t, w) <==> MapChars(t, Tombstones.FoldChar) == w
  {
    forall i | 0 <= i < |w| ensures Tombstones.FoldChar(w[i]) == w[i] { assert w[i] in w; }
    assert MapChars(w, Tombstones.FoldChar) == w;
    WordsFold(t, w);
  }

  lemma OneOfFolded(t: string, forms: set<string>)
    requires forall w | w in forms :: Tombstones.Word(w)
    ensures OneOf(t, forms) <==> MapChars(t, Tombstones.FoldChar) in forms
  {
    forall w | w in forms ensures SameLetters(t, w) <==> MapChars(t, Tombstones.FoldChar) == w { FoldedForm(t, w); }
  }

  // What the table writes for the forms of each suffix, and for nothing else.
  lemma JuniorForms(k: string)
    ensures k in {"JUNIOR", "JUN", "JR"} <==> k in Tombstones.SUFFIX && Tombstones.SUFFIX[k] == "JR"
  {
  }

  lemma FilhoForms(k: string)
    ensures k in {"FILHO", "FO", "FILHA"} <==> k in Tombstones.SUFFIX && Tombstones.SUFFIX[k] == "FILHO"
  {
  }

  lemma NetoForms(k: string)
    ensures k in {"NETO", "NETA"} <==> k in Tombstones.SUFFIX && Tombstones.SUFFIX[k] == "NETO"
  {
  }

  lemma SobrinhoForms(k: string)
    ensures k in {"SOBRINHO", "SOBRINHA"} <==> k in Tombstones.SUFFIX && Tombstones.SUFFIX[k] == "SOBRINHO"
  {
  }

  lemma SegundoForms(k: string)
    ensures k in {"SEGUNDO", "II"} <==> k in Tombstones.SUFFIX && Tombstones.SUFFIX[k] == "II"
  {
  }

  lemma TerceiroForms(k: string)
    ensures k in {"TERCEIRO", "III"} <==> k in Tombstones.SUFFIX && Tombstones.SUFFIX[k] == "III"
  {
  }

  lemma AnyForm(k: string)
    requires k in Tombstones.SUFFIX
    ensures var w := Tombstones.SUFFIX[k]; w == "JR" || w == "FILHO" || w == "NETO" || w == "SOBRINHO" || w == "II" || w == "III"
  {
  }

  // The images of two words in the suffix table, if both are listed.
  predicate ListedAs(k: string, image: string) { k in Tombstones.SUFFIX && Tombstones.SUFFIX[k] == image }

  lemma GroupIs(t: string, u: string, forms: set<string>, image: string)
    requires forall w | w in forms :: Tombstones.Word(w)
    requires forall k :: k in forms <==> ListedAs(k, image)
    ensures BothOneOf(t, u, forms) <==>
              ListedAs(MapChars(t, Tombstones.FoldChar), image) && ListedAs(MapChars(u, Tombstones.FoldChar), image)
  {
    OneOfFolded(t, forms);
    OneOfFolded(u, forms);
  }

  lemma JuniorAgrees(t: string, u: string)
    ensures BothOneOf(t, u, {"JUNIOR", "JUN", "JR"}) <==>
              ListedAs(MapChars(t, Tombstones.FoldChar), "JR") && ListedAs(MapChars(u, Tombstones.FoldChar), "JR")
  {
    Tombstones.SuffixWords();
    forall k ensures k in {"JUNIOR", "JUN", "JR"} <==> ListedAs(k, "JR") { JuniorForms(k); }
    GroupIs(t, u, {"JUNIOR", "JUN", "JR"}, "JR");
  }

  lemma FilhoAgrees(t: string, u: string)
    ensures BothOneOf(t, u, {"FILHO", "FO", "FILHA"}) <==>
              ListedAs(MapChars(t, Tombstones.FoldChar), "FILHO") && ListedAs(MapChars(u, Tombstones.FoldChar), "FILHO")
  {
    Tombstones.SuffixWords();
    forall k ensures k in {"FILHO", "FO", "FILHA"} <==> ListedAs(k, "FILHO") { FilhoForms(k); }
    GroupIs(t, u, {"FILHO", "FO", "FILHA"}, "FILHO");
  }

  lemma NetoAgrees(t: string, u: string)
    ensures BothOneOf(t, u, {"NETO", "NETA"}) <==>
              ListedAs(MapChars(t, Tombstones.FoldChar), "NETO") && ListedAs(MapChars(u, Tombstones.FoldChar), "NETO")
  {
    Tombstones.SuffixWords();
    forall k ensures k in {"NETO", "NETA"} <==> ListedAs(k, "NETO") { NetoForms(k); }
    GroupIs(t, u, {"NETO", "NETA"}, "NETO");
  }

  lemma SobrinhoAgrees(t: string, u: string)
    ensures BothOneOf(t, u, {"SOBRINHO", "SOBRINHA"}) <==>
              ListedAs(MapChars(t, Tombstones.FoldChar), "SOBRINHO") && ListedAs(MapChars(u, Tombstones.FoldChar), "SOBRINHO")
  {
    Tombstones.SuffixWords();
    forall k ensures k in {"SOBRINHO", "SOBRINHA"} <==> ListedAs(k, "SOBRINHO") { SobrinhoForms(k); }
    GroupIs(t, u, {"SOBRINHO", "SOBRINHA"}, "SOBRINHO");
  }

  lemma SegundoAgrees(t: string, u: string)
    ensures BothOneOf(t, u, {"SEGUNDO", "II"}) <==>
              ListedAs(MapChars(t, Tombstones.FoldChar), "II") && ListedAs(MapChars(u, Tombstones.FoldChar), "II")
  {
    Tombstones.SuffixWords();
    forall k ensures k in {"SEGUNDO", "II"} <==> ListedAs(k, "II") { SegundoForms(k); }
    GroupIs(t, u, {"SEGUNDO", "II"}, "II");
  }

  lemma TerceiroAgrees(t: string, u: string)
    ensures BothOneOf(t, u, {"TERCEIRO", "III"}) <==>
              ListedAs(MapChars(t, Tombstones.FoldChar), "III") && ListedAs(MapChars(u, Tombstones.FoldChar), "III")
  {
    Tombstones.SuffixWords();
    forall k ensures k in {"TERCEIRO", "III"} <==> ListedAs(k, "III") { TerceiroForms(k); }
    GroupIs(t, u, {"TERCEIRO", "III"}, "III");
  }

  lemma SuffixesAgree(t: string, u: string)
    ensures var k, l := MapChars(t, Tombstones.FoldChar), MapChars(u, Tombstones.FoldChar);
      SameSuffix(t, u) <==> k in Tombstones.SUFFIX && l in Tombstones.SUFFIX && Tombstones.SUFFIX[k] == Tombstones.SUFFIX[l]
  {
    var k, l := MapChars(t, Tombstones.FoldChar), MapChars(u, Tombstones.FoldChar);
    JuniorAgrees(t, u);
    FilhoAgrees(t, u);
    NetoAgrees(t, u);
    SobrinhoAgrees(t, u);
    SegundoAgrees(t, u);
    TerceiroAgrees(t, u);
    if k in Tombstones.SUFFIX { AnyForm(k); }
  }

  // The canonical word is the same exactly for the same word.
  lemma WordsAgree(t: string, u: string)
    ensures (Tombstones.Canon(Tombstones.SUFFIX, MapChars(t, Tombstones.FoldChar))
             == Tombstones.Canon(Tombstones.SUFFIX, MapChars(u, Tombstones.FoldChar))) <==> SameWord(t, u)
  {
    WordsFold(t, u);
    SuffixesAgree(t, u);
    CanonAgrees(MapChars(t, Tombstones.FoldChar), MapChars(u, Tombstones.FoldChar));
  }

  lemma CanonAgrees(k: string, l: string)
    ensures Tombstones.Canon(Tombstones.SUFFIX, k) == Tombstones.Canon(Tombstones.SUFFIX, l) <==>
              k == l || (k in Tombstones.SUFFIX && l in Tombstones.SUFFIX && Tombstones.SUFFIX[k] == Tombstones.SUFFIX[l])
  {
    ImageIsListed(k);
    ImageIsListed(l);
  }

  lemma ImageIsListed(k: string)
    ensures k in Tombstones.SUFFIX ==> Tombstones.SUFFIX[k] in Tombstones.SUFFIX
  {
    if k in Tombstones.SUFFIX {
      AnyForm(k);
      Tombstones.SuffixForms();
    }
  }

  // The key, from the words of the name.
  lemma KeyOfWords(gaps: seq<string>, words: seq<string>)
    requires Spells(gaps, words, Gap)
    ensures Tombstones.Key(Spaced(gaps, words)) == "name:" + Join(CanonicalWords(words), " ")
    ensures forall w | w in CanonicalWords(words) :: Solid(w, Tombstones.Blank)
  {
    var name := Spaced(gaps, words);
    SplitFindsTheWords(gaps, words, Gap);
    SplitAgrees(name, Gap, Tombstones.Blank);
    Tombstones.KeyTokensAre(name);
    forall i | 0 <= i < |words| ensures Solid(CanonicalWords(words)[i], Tombstones.Blank) {
      assert words[i] in Split(name, Tombstones.Blank);
      CanonIsSolid(words[i]);
    }
  }

  function CanonicalWords(words: seq<string>): seq<string> {
    Tombstones.CanonAll(Tombstones.SUFFIX, MapEach(words, Tombstones.FoldChar))
  }

  lemma CanonIsSolid(t: string)
    requires Solid(t, Tombstones.Blank)
    ensures Solid(Tombstones.Canon(Tombstones.SUFFIX, MapChars(t, Tombstones.FoldChar)), Tombstones.Blank)
  {
    var k := MapChars(t, Tombstones.FoldChar);
    Tombstones.CanonLaws(Tombstones.SUFFIX, k);
    forall i | 0 <= i < |k| ensures !Tombstones.Blank(k[i]) {
      assert t[i] in t;
      Tombstones.FoldKeepsBlanks(t[i]);
    }
  }

  /**
   Two spellings have one tombstone key exactly when they are the same words in the same order, where a
   word may differ in case and accents or be another form of the same suffix, and whatever blanks and
   punctuation stand between the words.
   */
  lemma KeysAgreeIff(gaps: seq<string>, words: seq<string>, gaps2: seq<string>, words2: seq<string>)
    requires Spells(gaps, words, Gap) && Spells(gaps2, words2, Gap)
    ensures Tombstones.Key(Spaced(gaps, words)) == Tombstones.Key(Spaced(gaps2, words2)) <==> SameName(words, words2)
  {
    KeyOfWords(gaps, words);
    KeyOfWords(gaps2, words2);
    JoinsAgree(CanonicalWords(words), CanonicalWords(words2));
    CanonicalWordsAgree(words, words2);
  }

  lemma JoinsAgree(a: seq<string>, b: seq<string>)
    requires forall t | t in a || t in b :: Solid(t, Tombstones.Blank)
    ensures "name:" + Join(a, " ") == "name:" + Join(b, " ") <==> a == b
  {
    GluedAgree(a, b, Tombstones.Blank, ' ');
    assert ("name:" + Join(a, " "))[5..] == Join(a, " ") && ("name:" + Join(b, " "))[5..] == Join(b, " ");
  }

  lemma CanonicalWordsAgree(ts: seq<string>, us: seq<string>)
    ensures CanonicalWords(ts) == CanonicalWords(us) <==> SameName(ts, us)
  {
    var a, b := CanonicalWords(ts), CanonicalWords(us);
    if |ts| == |us| {
      forall i | 0 <= i < |ts| ensures a[i] == b[i] <==> SameWord(ts[i], us[i]) { WordsAgree(ts[i], us[i]); }
    }
  }

  // Once a name's tombstone is written, the check stops the other spellings of the same name and stops no
  // other name that it did not stop before.
  lemma TombstoneStopsIff(s: Purge.Store, kind: Purge.Kind, gaps: seq<string>, words: seq<string>, gaps2: seq<string>, words2: seq<string>)
    requires Spells(gaps, words, Gap) && Spells(gaps2, words2, Gap)
    requires Spaced(gaps, words) in s.owed && Tombstones.Recordable(Tombstones.Key(Spaced(gaps, words)))
    ensures var t, name := Purge.After(s, Purge.Tombstone(Spaced(gaps, words))), Spaced(gaps2, words2);
      && (SameName(words, words2) ==> Purge.Blocked(t, name) && Purge.After(t, Purge.Check(kind, name)) == t)
      && (!SameName(words, words2) ==> (Purge.Blocked(t, name) <==> Purge.Blocked(s, name)))
  {
    KeysAgreeIff(gaps, words, gaps2, words2);
    Purge.RecordableIsNotBlank(Spaced(gaps, words));
  }

  lemma OneWord(t: string, sep: char -> bool)
    requires Solid(t, sep)
    ensures Spells(["", ""], [t], sep) && Spaced(["", ""], [t]) == t
  {
    assert ["", ""][1..] == [""] && [t][1..] == [];
  }

  lemma TwoWords(a: string, gap: string, b: string, end: string, sep: char -> bool)
    requires Solid(a, sep) && Solid(b, sep) && gap != "" && forall c | c in gap + end :: sep(c)
    ensures Spells(["", gap, end], [a, b], sep) && Spaced(["", gap, end], [a, b]) == a + gap + b + end
  {
    assert ["", gap, end][1..] == [gap, end] && [gap, end][1..] == [end] && [a, b][1..] == [b] && [b][1..] == [];
    forall c | c in gap || c in end ensures sep(c) { assert c in gap + end; }
    assert Spaced([gap, end], [b]) == gap + (b + end);
  }

  // "JOSÉ" and "JOSE" leave the one tombstone "name:JOSE".
  lemma JoseIsJose(accented: string, plain: string)
    requires accented == "JOSÉ" && plain == "JOSE"
    ensures Tombstones.Key(accented) == Tombstones.Key(plain) == "name:" + plain
  {
    JoseFolds(accented, plain);
    JoseFolds(plain, plain);
    KeyOfOneWord(accented, plain);
    KeyOfOneWord(plain, plain);
  }

  lemma JoseFolds(spelling: string, plain: string)
    requires (spelling == "JOSÉ" || spelling == "JOSE") && plain == "JOSE"
    ensures Solid(spelling, Gap) && MapChars(spelling, Tombstones.FoldChar) == plain && plain !in Tombstones.SUFFIX
  {
    assert |spelling| == 4 && spelling[0] == 'J' && spelling[1] == 'O' && spelling[2] == 'S' && spelling[3] in {'É', 'E'};
  }

  lemma KeyOfOneWord(t: string, folded: string)
    requires Solid(t, Gap) && MapChars(t, Tombstones.FoldChar) == folded && folded !in Tombstones.SUFFIX
    ensures Tombstones.Key(t) == "name:" + folded
  {
    OneWord(t, Gap);
    KeyOfWords(["", ""], [t]);
    assert CanonicalWords([t]) == [folded];
  }

  // "ANA JUNIOR" and "ANA JR." leave one tombstone, "ANA NETO" another; and so with any stem for ANA.
  lemma JuniorIsJr(stem: string, junior: string, jr: string, neto: string)
    requires Solid(stem, Gap) && junior == "JUNIOR" && jr == "JR" && neto == "NETO"
    ensures Tombstones.Key(stem + " " + junior) == Tombstones.Key(stem + " " + jr + ".")
    ensures Tombstones.Key(stem + " " + neto) != Tombstones.Key(stem + " " + junior)
  {
    assert stem + " " + junior + "" == stem + " " + junior && stem + " " + neto + "" == stem + " " + neto;
    SuffixWitness(junior, jr, neto);
    TwoWordsAgree(stem, junior, "", jr, ".");
    TwoWordsAgree(stem, neto, "", junior, "");
  }

  lemma TwoWordsAgree(stem: string, a: string, end: string, b: string, end2: string)
    requires Solid(stem, Gap) && Solid(a, Gap) && Solid(b, Gap)
    requires forall c | c in end || c in end2 :: Gap(c)
    ensures Tombstones.Key(stem + " " + a + end) == Tombstones.Key(stem + " " + b + end2) <==> SameWord(a, b)
  {
    TwoWords(stem, " ", a, end, Gap);
    TwoWords(stem, " ", b, end2, Gap);
    KeysAgreeIff(["", " ", end], [stem, a], ["", " ", end2], [stem, b]);
    var ts, us := [stem, a], [stem, b];
    assert SameLetters(stem, stem);
    assert ts[0] == us[0] == stem && ts[1] == a && us[1] == b;
  }

  lemma SuffixWitness(junior: string, jr: string, neto: string)
    requires junior == "JUNIOR" && jr == "JR" && neto == "NETO"
    ensures SameWord(junior, jr) && !SameWord(neto, junior)
    ensures Solid(junior, Gap) && Solid(jr, Gap) && Solid(neto, Gap)
  {
    Tombstones.SuffixWords();
    SuffixFolds(junior);
    SuffixFolds(jr);
    SuffixFolds(neto);
    JuniorForms(junior);
    JuniorForms(jr);
    NetoForms(neto);
    WordsFold(neto, junior);
    SuffixesAgree(junior, jr);
    SuffixesAgree(neto, junior);
  }

  lemma SuffixFolds(w: string)
    requires Tombstones.Word(w)
    ensures MapChars(w, Tombstones.FoldChar) == w && Solid(w, Gap)
  {
    forall i | 0 <= i < |w| ensures Tombstones.FoldChar(w[i]) == w[i] { assert w[i] in w; }
  }

  // ----- Node ids -----

  predicate SameCase(t: string, u: string) { |t| == |u| && forall i | 0 <= i < |t| :: LowerChar(t[i]) == LowerChar(u[i]) }

  predicate SameWordsCase(ts: seq<string>, us: seq<string>) { |ts| == |us| && forall i | 0 <= i < |ts| :: SameCase(ts[i], us[i]) }

  // None of the characters that a node id cannot tell from the space between two words.
  predicate Clean(t: string) { forall c | c in t :: c !in {'/', '_', '?', '#', '%'} }

  lemma SlugOfWords(gaps: seq<string>, words: seq<string>)
    requires Spells(gaps, words, IsSpace)
    ensures Tombstones.Slug(Spaced(gaps, words)) == Join(MapEach(words, Tombstones.SlugChar), "_")
  {
    SplitFindsTheWords(gaps, words, IsSpace);
    Tombstones.SlugIs(Spaced(gaps, words));
    MapJoined(words, "_", Tombstones.SlugChar);
    assert MapChars("_", Tombstones.SlugChar) == "_";
  }

  lemma CleanIsLowered(t: string)
    requires Clean(t)
    ensures MapChars(t, Tombstones.SlugChar) == ToLower(t) && forall c | c in ToLower(t) :: c != '_'
  {
    forall i | 0 <= i < |t| ensures Tombstones.SlugChar(t[i]) == LowerChar(t[i]) != '_' { assert t[i] in t; }
  }

  // Two names of clean words have one slug, and so one node id, exactly when they are the same words in the
  // same order up to case, whatever white space stands around them.
  lemma SlugsAgreeIff(gaps: seq<string>, words: seq<string>, gaps2: seq<string>, words2: seq<string>)
    requires Spells(gaps, words, IsSpace) && Spells(gaps2, words2, IsSpace)
    requires forall t | t in words || t in words2 :: Clean(t)
    ensures Tombstones.Slug(Spaced(gaps, words)) == Tombstones.Slug(Spaced(gaps2, words2)) <==> SameWordsCase(words, words2)
  {
    SlugOfWords(gaps, words);
    SlugOfWords(gaps2, words2);
    SluggedWords(words);
    SluggedWords(words2);
    GluedAgree(MapEach(words, Tombstones.SlugChar), MapEach(words2, Tombstones.SlugChar), IsGlue, '_');
    SluggedAgree(words, words2);
  }

  lemma GluedAgree(a: seq<string>, b: seq<string>, sep: char -> bool, glue: char)
    requires sep(glue) && forall t | t in a || t in b :: Solid(t, sep)
    ensures Join(a, [glue]) == Join(b, [glue]) <==> a == b
  {
    SplitJoined(a, sep, glue);
    SplitJoined(b, sep, glue);
  }

  lemma SluggedAgree(ts: seq<string>, us: seq<string>)
    requires forall t | t in ts || t in us :: Clean(t)
    ensures MapEach(ts, Tombstones.SlugChar) == MapEach(us, Tombstones.SlugChar) <==> SameWordsCase(ts, us)
  {
    var a, b := MapEach(ts, Tombstones.SlugChar), MapEach(us, Tombstones.SlugChar);
    if |ts| == |us| {
      forall i | 0 <= i < |ts| ensures a[i] == b[i] <==> SameCase(ts[i], us[i]) {
        CaseAgrees(ts[i], us[i]);
        assert ts[i] in ts && us[i] in us;
        CleanIsLowered(ts[i]);
        CleanIsLowered(us[i]);
      }
    }
  }

  predicate IsGlue(c: char) { c == '_' }

  lemma SluggedWords(words: seq<string>)
    requires forall t | t in words :: Clean(t) && t != ""
    ensures forall t | t in MapEach(words, Tombstones.SlugChar) :: Solid(t, IsGlue)
  {
    forall i | 0 <= i < |words| ensures Solid(MapEach(words, Tombstones.SlugChar)[i], IsGlue) {
      assert words[i] in words;
      CleanIsLowered(words[i]);
    }
  }

  lemma CaseAgrees(t: string, u: string)
    ensures ToLower(t) == ToLower(u) <==> SameCase(t, u)
  {
    var k, l := ToLower(t), ToLower(u);
    if |t| == |u| { assert forall i | 0 <= i < |t| :: k[i] == LowerChar(t[i]) && l[i] == LowerChar(u[i]); }
  }

  // The space between two words becomes an underscore.
  lemma SpaceIsGlue(a: string, b: string)
    requires Clean(a) && Clean(b) && Solid(a, IsSpace) && Solid(b, IsSpace)
    ensures Tombstones.Slug(a + " " + b) == ToLower(a) + "_" + ToLower(b)
  {
    CleanIsLowered(a);
    CleanIsLowered(b);
    TwoWords(a, " ", b, "", IsSpace);
    SlugOfWords(["", " ", ""], [a, b]);
    assert a + " " + b == a + " " + b + "";
    JoinedTwo(MapEach([a, b], Tombstones.SlugChar), ToLower(a), ToLower(b));
  }

  // A slash, a question mark, a hash and a percent sign each become the same.
  lemma MarksAreGlue(a: string, c: char, b: string)
    requires Clean(a) && Clean(b) && Solid(a, IsSpace) && Solid(b, IsSpace) && c in {'/', '?', '#', '%', '_'}
    ensures Tombstones.Slug(a + [c] + b) == ToLower(a) + "_" + ToLower(b)
  {
    MarkIsSolid(a, c, b);
    SlugOfOneWord(a + [c] + b);
    MarkMapped(a, c, b);
    CleanIsLowered(a);
    CleanIsLowered(b);
  }

  lemma MarkIsSolid(a: string, c: char, b: string)
    requires Solid(a, IsSpace) && Solid(b, IsSpace) && c in {'/', '?', '#', '%', '_'}
    ensures Solid(a + [c] + b, IsSpace) && Tombstones.SlugChar(c) == '_'
  {
  }

  lemma SlugOfOneWord(w: string)
    requires Solid(w, IsSpace)
    ensures Tombstones.Slug(w) == MapChars(w, Tombstones.SlugChar)
  {
    OneWord(w, IsSpace);
    SlugOfWords(["", ""], [w]);
  }

  lemma JoinedTwo(ts: seq<string>, a: string, b: string)
    requires |ts| == 2 && ts[0] == a && ts[1] == b
    ensures Join(ts, "_") == a + "_" + b
  {
    assert ts[1..] == [b];
  }

  lemma MarkMapped(a: string, c: char, b: string)
    requires Tombstones.SlugChar(c) == '_'
    ensures MapChars(a + [c] + b, Tombstones.SlugChar) == MapChars(a, Tombstones.SlugChar) + "_" + MapChars(b, Tombstones.SlugChar)
  {
  }

  // The three kinds of node, each under its own prefix.
  lemma NodeIdsAre(a: string, b: string)
    requires Clean(a) && Clean(b) && Solid(a, IsSpace) && Solid(b, IsSpace)
    ensures Purge.NodeId(Purge.DjenPerson, a + " " + b) == "person_djen_" + (ToLower(a) + "_" + ToLower(b))
    ensures Purge.NodeId(Purge.DjenOrganization, a + " " + b) == "org_djen_" + (ToLower(a) + "_" + ToLower(b))
    ensures Purge.NodeId(Purge.QsaPerson, a + " " + b) == "person_qsa_" + (ToLower(a) + "_" + ToLower(b))
  {
    SpaceIsGlue(a, b);
  }

  // ----- Roster keys -----

  function RosterChar(c: char): char { Roster.Unaccented(UpperChar(c)) }

  lemma NormalizedWords(gaps: seq<string>, words: seq<string>)
    requires Spells(gaps, words, IsSpace)
    ensures Roster.NormalizeName(Spaced(gaps, words)) == Join(MapEach(words, RosterChar), " ")
    ensures forall t | t in MapEach(words, RosterChar) :: Solid(t, IsSpace)
  {
    var name := Spaced(gaps, words);
    SplitFindsTheWords(gaps, words, IsSpace);
    FieldsOfTrimmed(name);
    forall c: char ensures IsSpace(RosterChar(c)) <==> IsSpace(c) { CaseLaws(c, c); }
    SplitMapped(Trim(name), RosterChar, IsSpace, IsSpace);
    assert MapChars(ToUpper(Trim(name)), Roster.Unaccented) == MapChars(Trim(name), RosterChar);
    forall i | 0 <= i < |words| ensures Solid(MapEach(words, RosterChar)[i], IsSpace) {
      forall k | 0 <= k < |words[i]| ensures !IsSpace(RosterChar(words[i][k])) { assert words[i][k] in words[i]; }
    }
  }

  predicate SameNames(ts: seq<string>, us: seq<string>) { |ts| == |us| && forall i | 0 <= i < |ts| :: SameLetters(ts[i], us[i]) }

  // Two names are one to the roster exactly when they are the same words up to case and accents, whatever
  // white space stands around them.
  lemma NamesAgreeIff(gaps: seq<string>, words: seq<string>, gaps2: seq<string>, words2: seq<string>)
    requires Spells(gaps, words, IsSpace) && Spells(gaps2, words2, IsSpace)
    ensures Roster.NormalizeName(Spaced(gaps, words)) == Roster.NormalizeName(Spaced(gaps2, words2)) <==> SameNames(words, words2)
  {
    NormalizedWords(gaps, words);
    NormalizedWords(gaps2, words2);
    GluedAgree(MapEach(words, RosterChar), MapEach(words2, RosterChar), IsSpace, ' ');
    RosterWordsAgree(words, words2);
  }

  lemma RosterWordsAgree(ts: seq<string>, us: seq<string>)
    ensures MapEach(ts, RosterChar) == MapEach(us, RosterChar) <==> SameNames(ts, us)
  {
    var a, b := MapEach(ts, RosterChar), MapEach(us, RosterChar);
    if |ts| == |us| {
      forall i | 0 <= i < |ts| ensures a[i] == b[i] <==> SameLetters(ts[i], us[i]) { WordsLoseAccents(ts[i], us[i]); }
    }
  }

  lemma WordsLoseAccents(t: string, u: string)
    ensures MapChars(t, RosterChar) == MapChars(u, RosterChar) <==> SameLetters(t, u)
  {
    var k, l := MapChars(t, RosterChar), MapChars(u, RosterChar);
    if |t| == |u| {
      forall i | 0 <= i < |t| ensures k[i] == l[i] <==> SameLetter(t[i], u[i]) { LettersLoseAccents(t[i], u[i]); }
    }
  }

  // Poles agree when they are the same letters up to case, but for outer white space.
  lemma PolesAgreeIff(polo: string, polo2: string)
    ensures Roster.NormalizePole(polo) == Roster.NormalizePole(polo2) <==> SameCase(Trim(polo), Trim(polo2))
  {
    var t, u := Trim(polo), Trim(polo2);
    var k, l := ToUpper(t), ToUpper(u);
    if |t| == |u| {
      forall i | 0 <= i < |t| ensures k[i] == l[i] <==> LowerChar(t[i]) == LowerChar(u[i]) { CaseLaws(t[i], u[i]); }
    }
  }

  // "JOSÉ" and "JOSE" with one pole are one party.
  lemma JoseIsOneParty(p: Roster.Party, q: Roster.Party)
    requires p.nome == "JOSÉ" && q.nome == "JOSE" && p.polo == q.polo
    ensures Roster.KeyOf(p) == Roster.KeyOf(q)
  {
    JoseFolds(p.nome, q.nome);
    JoseFolds(q.nome, q.nome);
    SolidToo(p.nome);
    SolidToo(q.nome);
    OneWord(p.nome, IsSpace);
    OneWord(q.nome, IsSpace);
    WordsFold(p.nome, q.nome);
    NamesAgreeIff(["", ""], [p.nome], ["", ""], [q.nome]);
  }

  lemma SolidToo(t: string)
    requires Solid(t, Gap)
    ensures Solid(t, IsSpace)
  {
  }
}
