/**
 Purge tombstones: the keys a purge writes, the node ids the ingest workers derive, and why a
 purged name-only node stays gone.

 The key and the node id come from two different normalisers of the same name. The guarantee
 rests on the key being a function of the id's slug.
 */
module Tombstones {
  import opened Text

  // ----- The tombstone key -----

  // The table's entries are runs of Latin-1: Á À Â Ã Ä are '\U{00C0}' to '\U{00C4}', and so on.
  function AccentChar(c: char): char {
    if 'À' <= c <= 'Ä' then 'A'
    else if 'È' <= c <= 'Ë' then 'E'
    else if 'Ì' <= c <= 'Ï' then 'I'
    else if 'Ò' <= c <= 'Ö' then 'O'
    else if 'Ù' <= c <= 'Ü' then 'U'
    else if c == 'Ç' then 'C'
    else if c == 'Ñ' then 'N'
    else c
  }

  predicate Punct(c: char) {
    c == '.' || c == ',' || c == '-' || c == '\'' || c == '`' || c == '"' || c == '/'
  }

  function PunctChar(c: char): char { if Punct(c) then ' ' else c }

  // What the proofs need of the suffix table: canonical forms are canonical, and both sides are
  // upper-case words.
  ghost predicate Canonical(table: map<string, string>) {
    forall t | t in table :: Word(t) && Word(table[t]) && (table[t] in table ==> table[table[t]] == table[t])
  }

  predicate Word(t: string) { t != [] && forall c | c in t :: 'A' <= c <= 'Z' }

  type SuffixTable = table: map<string, string> | Canonical(table) witness map[]

  const SUFFIX_ENTRIES: map<string, string> := map[
    "JUNIOR" := "JR", "JR" := "JR", "JUN" := "JR",
    "FILHO" := "FILHO", "FO" := "FILHO", "FILHA" := "FILHO",
    "NETO" := "NETO", "NETA" := "NETO",
    "SOBRINHO" := "SOBRINHO", "SOBRINHA" := "SOBRINHO",
    "SEGUNDO" := "II", "II" := "II",
    "TERCEIRO" := "III", "III" := "III"
  ]

  lemma SuffixWords()
    ensures Word("JUNIOR") && Word("JR") && Word("JUN")
    ensures Word("FILHO") && Word("FO") && Word("FILHA")
    ensures Word("NETO") && Word("NETA") && Word("SOBRINHO") && Word("SOBRINHA")
    ensures Word("SEGUNDO") && Word("II") && Word("TERCEIRO") && Word("III")
  {
  }

  lemma SuffixEntriesAreCanonical()
    ensures Canonical(SUFFIX_ENTRIES)
  {
    SuffixWords();
    forall t | t in SUFFIX_ENTRIES ensures SUFFIX_ENTRIES[t] in SUFFIX_FORMS { }
    SuffixForms();
  }

  // What the table writes.
  const SUFFIX_FORMS: set<string> := {"JR", "FILHO", "NETO", "SOBRINHO", "II", "III"}

  lemma SuffixForms()
    ensures forall t | t in SUFFIX_FORMS :: t in SUFFIX_ENTRIES && SUFFIX_ENTRIES[t] == t
  {
  }

  const SUFFIX: SuffixTable := (SuffixEntriesAreCanonical(); SUFFIX_ENTRIES)

  function Canon(table: SuffixTable, t: string): string { if t in table then table[t] else t }

  function CanonAll(table: SuffixTable, ts: seq<string>): (r: seq<string>)
    ensures |r| == |ts| && forall i | 0 <= i < |ts| :: r[i] == Canon(table, ts[i])
  {
    seq(|ts|, i requires 0 <= i < |ts| => Canon(table, ts[i]))
  }

  function FoldChar(c: char): char { AccentChar(UpperChar(c)) }

  function KeyChar(c: char): char { PunctChar(FoldChar(c)) }

  function KeyTokens(name: string): seq<string> { Fields(MapChars(name, KeyChar)) }

  function KeyWith(table: SuffixTable, name: string): string {
    "name:" + Join(CanonAll(table, KeyTokens(name)), " ")
  }

  function Key(name: string): string { KeyWith(SUFFIX, name) }

  method TombstoneKeyName(name: string) returns (key: string)
    ensures key == Key(name)
  {
    var folded := MapChars(MapChars(ToUpper(name), AccentChar), PunctChar);
    assert folded == MapChars(name, KeyChar);
    var fields := Fields(folded);
    ghost var before := fields;
    for i := 0 to |fields|
      invariant |fields| == |before|
      invariant forall j | 0 <= j < |fields| :: fields[j] == if j < i then Canon(SUFFIX, before[j]) else before[j]
    {
      if fields[i] in SUFFIX {
        fields := fields[i := SUFFIX[fields[i]]];
      }
    }
    assert fields == CanonAll(SUFFIX, before);
    key := "name:" + Join(fields, " ");
  }

  // ----- The node id -----

  function StructuralChar(c: char): char { if c == '/' || c == '?' || c == '#' || c == '%' then '_' else c }

  function Slug(name: string): string {
    MapChars(Join(Fields(ToLower(Trim(name))), "_"), StructuralChar)
  }

  // ----- The key factors through the slug -----

  predicate Structural(c: char) { c == '_' || c == '?' || c == '#' || c == '%' }

  // No character that a slug cannot tell from a space or a slash.
  predicate Plain(name: string) { forall c | c in name :: !Structural(c) }

  predicate Blank(c: char) { IsSpace(c) || Punct(c) }

  predicate BlankOrGlue(c: char) { Blank(c) || c == '_' }

  function SlugChar(c: char): char { StructuralChar(LowerChar(c)) }

  // The key, computed from the slug alone.
  function KeyOfSlug(table: SuffixTable, slug: string): string {
    "name:" + Join(CanonAll(table, MapEach(Split(slug, BlankOrGlue), FoldChar)), " ")
  }

  lemma FoldLaws(c: char)
    ensures IsSpace(KeyChar(c)) <==> Blank(c)
    ensures !Blank(c) ==> KeyChar(c) == FoldChar(c)
    ensures Structural(c) ==> FoldChar(c) == c
    ensures Structural(FoldChar(c)) ==> FoldChar(c) == c
  {
  }

  lemma FoldIsStable(c: char)
    ensures FoldChar(LowerChar(c)) == FoldChar(c)
  {
  }

  lemma FoldIsFolded(c: char)
    ensures FoldChar(FoldChar(c)) == FoldChar(c)
  {
  }

  lemma FoldKeepsBlanks(c: char)
    ensures Blank(FoldChar(c)) <==> Blank(c)
  {
  }

  lemma SlugIs(name: string)
    ensures Slug(name) == MapChars(Join(Fields(name), "_"), SlugChar)
  {
    LowerFields(name);
    MapJoined(Fields(name), "_", LowerChar);
    assert MapChars("_", LowerChar) == "_";
    var j := Join(Fields(name), "_");
    assert MapChars(MapChars(j, LowerChar), StructuralChar) == MapChars(j, SlugChar);
  }

  lemma LowerFields(name: string)
    ensures Fields(ToLower(Trim(name))) == MapEach(Fields(name), LowerChar)
  {
    forall c: char ensures IsSpace(LowerChar(c)) <==> IsSpace(c) { CaseLaws(c, c); }
    SplitMapped(Trim(name), LowerChar, IsSpace, IsSpace);
    FieldsOfTrimmed(name);
  }

  lemma KeyTokensAre(name: string)
    ensures KeyTokens(name) == MapEach(Split(name, Blank), FoldChar)
    ensures forall t | t in Split(name, Blank) :: Solid(t, Blank) && forall c | c in t :: c in name
  {
    forall c: char ensures IsSpace(KeyChar(c)) <==> Blank(c) { FoldLaws(c); }
    SplitMapped(name, KeyChar, Blank, IsSpace);
    SplitIsSolid(name, Blank);
    var ts := Split(name, Blank);
    forall i | 0 <= i < |ts| ensures MapChars(ts[i], KeyChar) == MapChars(ts[i], FoldChar) {
      assert ts[i] in ts;
      forall k | 0 <= k < |ts[i]| ensures KeyChar(ts[i][k]) == FoldChar(ts[i][k]) { FoldLaws(ts[i][k]); }
    }
    assert MapEach(ts, KeyChar) == MapEach(ts, FoldChar);
  }

  lemma GluedFields(name: string, c: char)
    requires c in Join(Fields(name), "_")
    ensures c in name || c == '_'
  {
    JoinHas(Fields(name), "_", c);
    SplitIsSolid(name, IsSpace);
  }

  lemma GluedSeparators(name: string, c: char)
    requires Plain(name) && c in Join(Fields(name), "_")
    ensures BlankOrGlue(SlugChar(c)) <==> BlankOrGlue(c)
  {
    GluedFields(name, c);
    CaseLaws(c, c);
  }

  lemma SlugTokens(name: string)
    requires Plain(name)
    ensures Split(Slug(name), BlankOrGlue) == MapEach(Split(name, Blank), SlugChar)
  {
    var j := Join(Fields(name), "_");
    forall c | c in j ensures BlankOrGlue(SlugChar(c)) <==> BlankOrGlue(c) { GluedSeparators(name, c); }
    SlugIs(name);
    SplitMapped(j, SlugChar, BlankOrGlue, BlankOrGlue);
    SplitGlued(name, IsSpace, BlankOrGlue, '_');
    SplitAgrees(name, BlankOrGlue, Blank);
  }

  lemma FoldOfSlugged(t: string)
    requires Plain(t) && Solid(t, Blank)
    ensures MapChars(MapChars(t, SlugChar), FoldChar) == MapChars(t, FoldChar)
  {
    forall k | 0 <= k < |t| ensures FoldChar(SlugChar(t[k])) == FoldChar(t[k]) {
      assert t[k] in t;
      FoldIsStable(t[k]);
    }
  }

  // The key of a plain name is a function of its slug: two spellings with one node id share one key.
  lemma KeyFactorsThroughSlug(table: SuffixTable, name: string)
    requires Plain(name)
    ensures KeyWith(table, name) == KeyOfSlug(table, Slug(name))
  {
    var ts := Split(name, Blank);
    SlugTokens(name);
    KeyTokensAre(name);
    forall i | 0 <= i < |ts| ensures MapChars(MapChars(ts[i], SlugChar), FoldChar) == MapChars(ts[i], FoldChar) {
      assert ts[i] in ts;
      FoldOfSlugged(ts[i]);
    }
    assert MapEach(MapEach(ts, SlugChar), FoldChar) == MapEach(ts, FoldChar);
  }

  // ----- Exactly which names are safe -----

  function SlashChar(c: char): char { if Structural(c) then '/' else c }

  // A plain spelling with the same slug.
  function Slashed(name: string): string { MapChars(name, SlashChar) }

  lemma SlashedSharesSlug(name: string)
    ensures Plain(Slashed(name))
    ensures Slug(Slashed(name)) == Slug(name)
  {
    var ts := Fields(name);
    SlugIs(name);
    SlugIs(Slashed(name));
    SplitMapped(name, SlashChar, IsSpace, IsSpace);
    MapJoined(ts, "_", SlugChar);
    MapJoined(MapEach(ts, SlashChar), "_", SlugChar);
    forall i | 0 <= i < |ts| ensures MapChars(MapChars(ts[i], SlashChar), SlugChar) == MapChars(ts[i], SlugChar) {
    }
    assert MapEach(MapEach(ts, SlashChar), SlugChar) == MapEach(ts, SlugChar);
  }

  lemma TokenKeepsStructural(table: SuffixTable, t: string, c: char)
    requires Structural(c)
    ensures c in Canon(table, MapChars(t, FoldChar)) <==> c in t
  {
    var folded := MapChars(t, FoldChar);
    assert c in Canon(table, folded) <==> c in folded;
    if c in t {
      var p :| 0 <= p < |t| && t[p] == c;
      assert folded[p] == c by { FoldLaws(c); }
    } else if c in folded {
      var p :| 0 <= p < |t| && folded[p] == c;
      FoldLaws(t[p]);
    }
  }

  lemma TokensKeepStructural(table: SuffixTable, ts: seq<string>, c: char)
    requires Structural(c)
    ensures (exists t | t in CanonAll(table, MapEach(ts, FoldChar)) :: c in t) <==> (exists t | t in ts :: c in t)
  {
    var cs := CanonAll(table, MapEach(ts, FoldChar));
    if t :| t in ts && c in t {
      var k :| 0 <= k < |ts| && ts[k] == t;
      TokenKeepsStructural(table, t, c);
      assert cs[k] in cs;
    }
    if t :| t in cs && c in t {
      var k :| 0 <= k < |cs| && cs[k] == t;
      TokenKeepsStructural(table, ts[k], c);
      assert ts[k] in ts;
    }
  }

  lemma PrefixAddsNone(s: string, c: char)
    requires Structural(c)
    ensures c in "name:" + s <==> c in s
    ensures c !in " "
  {
  }

  lemma TokensHold(name: string, c: char)
    requires !Blank(c)
    ensures (exists t | t in Split(name, Blank) :: c in t) <==> c in name
  {
    SplitIsSolid(name, Blank);
    if c in name {
      var i :| 0 <= i < |name| && name[i] == c;
      SplitKeeps(name, i, Blank);
    }
  }

  // The four characters pass through the key untouched.
  lemma KeyKeepsStructural(table: SuffixTable, name: string, c: char)
    requires Structural(c)
    ensures c in KeyWith(table, name) <==> c in name
  {
    var cs := CanonAll(table, KeyTokens(name));
    TokensHold(name, c);
    TokensKeepStructural(table, Split(name, Blank), c);
    KeyTokensAre(name);
    JoinHas(cs, " ", c);
    PrefixAddsNone(Join(cs, " "), c);
  }

  // Every plain spelling that shares a name's node id shares its key, exactly when the name is itself plain.
  lemma SpellingsShareKeyIff(table: SuffixTable, name: string)
    ensures (forall m | Plain(m) && Slug(m) == Slug(name) :: KeyWith(table, m) == KeyWith(table, name)) <==> Plain(name)
  {
    if Plain(name) {
      forall m | Plain(m) && Slug(m) == Slug(name) ensures KeyWith(table, m) == KeyWith(table, name) {
        KeyFactorsThroughSlug(table, m);
        KeyFactorsThroughSlug(table, name);
      }
    } else {
      var c :| c in name && Structural(c);
      SlashedSharesSlug(name);
      KeyKeepsStructural(table, name, c);
      KeyKeepsStructural(table, Slashed(name), c);
    }
  }

  lemma SlugKeepsChars(name: string, c: char)
    requires c in name && !IsSpace(c)
    ensures SlugChar(c) in Slug(name)
  {
    var i :| 0 <= i < |name| && name[i] == c;
    SlugIs(name);
    SplitKeeps(name, i, IsSpace);
    var j := Join(Fields(name), "_");
    JoinHas(Fields(name), "_", c);
    var k :| 0 <= k < |j| && j[k] == c;
    assert MapChars(j, SlugChar)[k] == SlugChar(c);
  }

  // A slug without '_' comes from plain names only.
  lemma WordIsPlain(name: string)
    requires '_' !in Slug(name)
    ensures Plain(name)
  {
    forall c | c in name ensures !Structural(c) {
      if Structural(c) { SlugKeepsChars(name, c); }
    }
  }

  lemma SlugIsSettled(name: string)
    ensures forall c | c in Slug(name) :: !IsSpace(c) && SlugChar(c) == c
  {
    SlugIs(name);
    var j := Join(Fields(name), "_");
    forall c | c in j ensures !IsSpace(SlugChar(c)) && SlugChar(SlugChar(c)) == SlugChar(c) {
      SlugCharSettles(name, c);
    }
  }

  lemma SlugCharSettles(name: string, c: char)
    requires c in Join(Fields(name), "_")
    ensures !IsSpace(SlugChar(c)) && SlugChar(SlugChar(c)) == SlugChar(c)
  {
    JoinHas(Fields(name), "_", c);
    SplitIsSolid(name, IsSpace);
    CaseLaws(c, c);
  }

  lemma FieldsOfWord(t: string)
    requires forall c | c in t :: !IsSpace(c)
    ensures Join(Fields(t), "_") == t
  {
    if t != "" {
      SplitOfToken(t, "", IsSpace);
      assert t + "" == t && Fields(t) == [t];
    }
  }

  lemma SlugIsIdempotent(name: string)
    ensures Slug(Slug(name)) == Slug(name)
  {
    var slug := Slug(name);
    SlugIsSettled(name);
    SlugIs(slug);
    FieldsOfWord(slug);
    assert MapChars(slug, SlugChar) == slug;
  }

  // A space and an underscore between two words give one slug.
  lemma SlugOfTwo(a: string, b: string)
    requires Solid(a, IsSpace) && Solid(b, IsSpace)
    ensures Slug(a + " " + b) == Slug(a + "_" + b)
  {
    assert a + " " + b == a + (" " + b) && (" " + b)[1..] == b && b + "" == b;
    SplitOfToken(a, " " + b, IsSpace);
    SplitOfToken(b, "", IsSpace);
    assert Fields(a + " " + b) == [a, b];
    assert [a, b][1..] == [b];
    FieldsOfWord(a + "_" + b);
    SlugIs(a + " " + b);
    SlugIs(a + "_" + b);
  }

  lemma SlugHasAnotherKey(table: SuffixTable, name: string)
    requires Plain(name) && '_' in Slug(name)
    ensures Slug(Slug(name)) == Slug(name) && KeyWith(table, Slug(name)) != KeyWith(table, name)
  {
    SlugIsIdempotent(name);
    KeyKeepsStructural(table, name, '_');
    KeyKeepsStructural(table, Slug(name), '_');
  }

  // Over every spelling: all names with a node id share one key exactly when the slug has no '_'.
  lemma AllSpellingsShareKeyIff(table: SuffixTable, name: string)
    ensures (forall m | Slug(m) == Slug(name) :: KeyWith(table, m) == KeyWith(table, name)) <==> '_' !in Slug(name)
  {
    if '_' !in Slug(name) {
      WordIsPlain(name);
      forall m | Slug(m) == Slug(name) ensures KeyWith(table, m) == KeyWith(table, name) {
        WordIsPlain(m);
        KeyFactorsThroughSlug(table, m);
        KeyFactorsThroughSlug(table, name);
      }
    } else if Plain(name) {
      SlugHasAnotherKey(table, name);
    } else {
      SpellingsShareKeyIff(table, name);
    }
  }

  predicate EndsIn(t: string, c: char) { t != [] && t[|t| - 1] == c }

  // The check and the write both skip a key that ends in ':'.
  predicate Recordable(key: string) { Trim(key) != "" && !EndsIn(key, ':') }

  function StripBlanks(s: string): string {
    if s != [] && Blank(s[|s| - 1]) then StripBlanks(s[..|s| - 1]) else s
  }

  lemma {:induction false} SplitOfStripped(s: string)
    ensures Split(StripBlanks(s), Blank) == Split(s, Blank)
  {
    if s != [] && Blank(s[|s| - 1]) {
      SplitOfStripped(s[..|s| - 1]);
      SplitDropsTrailing(s[..|s| - 1], s[|s| - 1], Blank);
      assert s[..|s| - 1] + [s[|s| - 1]] == s;
    }
  }

  lemma {:induction false} SplitEndsWith(s: string, sep: char -> bool)
    requires s != [] && !sep(s[|s| - 1])
    ensures Split(s, sep) != [] && EndsIn(Split(s, sep)[|Split(s, sep)| - 1], s[|s| - 1])
  {
    if |s| > 1 {
      var rest, ts := Split(s[1..], sep), Split(s, sep);
      SplitEndsWith(s[1..], sep);
      assert s[1..][|s| - 2] == s[|s| - 1];
      if !sep(s[0]) && !sep(s[1]) && |rest| == 1 {
        assert ts == [[s[0]] + rest[0]];
      } else {
        assert ts[|ts| - 1] == rest[|rest| - 1];
      }
    }
  }

  lemma {:induction false} JoinEndsWith(ts: seq<string>, glue: string)
    requires ts != [] && ts[|ts| - 1] != []
    ensures var j := Join(ts, glue);
      j != [] && j[|j| - 1] == ts[|ts| - 1][|ts[|ts| - 1]| - 1]
  {
    if |ts| > 1 { JoinEndsWith(ts[1..], glue); }
  }

  lemma {:induction false} TrimRightKeeps(s: string)
    requires s != [] && !IsSpace(s[0])
    ensures TrimRight(s) != []
  {
    if IsSpace(s[|s| - 1]) { TrimRightKeeps(s[..|s| - 1]); }
  }

  lemma CanonEnd(table: SuffixTable, t: string)
    requires t != []
    ensures Canon(table, t) != [] && (EndsIn(Canon(table, t), ':') <==> EndsIn(t, ':'))
  {
    if t in table {
      assert t[|t| - 1] in t && table[t][|table[t]| - 1] in table[t];
    }
  }

  predicate EndsWithToken(name: string, t: string) {
    var ts := Split(name, Blank); ts != [] && ts[|ts| - 1] == t && t != []
  }

  lemma LastToken(name: string) returns (t: string)
    requires StripBlanks(name) != []
    ensures EndsWithToken(name, t) && (EndsIn(t, ':') <==> EndsIn(StripBlanks(name), ':'))
  {
    var ts := Split(name, Blank);
    SplitOfStripped(name);
    StripBlanksEnds(name);
    SplitEndsWith(StripBlanks(name), Blank);
    t := ts[|ts| - 1];
  }

  lemma FoldedEnd(t: string)
    requires t != []
    ensures EndsIn(MapChars(t, FoldChar), ':') <==> EndsIn(t, ':')
  {
  }

  lemma LastCanon(table: SuffixTable, us: seq<string>)
    requires us != [] && us[|us| - 1] != []
    ensures Join(CanonAll(table, us), " ") != []
    ensures EndsIn(Join(CanonAll(table, us), " "), ':') <==> EndsIn(us[|us| - 1], ':')
  {
    CanonEnd(table, us[|us| - 1]);
    JoinEndsWith(CanonAll(table, us), " ");
  }

  lemma JoinedEnd(table: SuffixTable, ts: seq<string>)
    requires ts != [] && ts[|ts| - 1] != []
    ensures Join(CanonAll(table, MapEach(ts, FoldChar)), " ") != []
    ensures EndsIn(Join(CanonAll(table, MapEach(ts, FoldChar)), " "), ':') <==> EndsIn(ts[|ts| - 1], ':')
  {
    var us := MapEach(ts, FoldChar);
    assert us[|us| - 1] == MapChars(ts[|ts| - 1], FoldChar);
    FoldedEnd(ts[|ts| - 1]);
    LastCanon(table, us);
  }

  lemma PrefixedEnd(j: string)
    ensures EndsIn("name:" + j, ':') <==> j == [] || EndsIn(j, ':')
  {
  }

  lemma KeyEndsLikeLastToken(table: SuffixTable, name: string, t: string)
    requires EndsWithToken(name, t)
    ensures EndsIn(KeyWith(table, name), ':') <==> EndsIn(t, ':')
  {
    var ts := Split(name, Blank);
    KeyTokensAre(name);
    JoinedEnd(table, ts);
    EndsLike(KeyWith(table, name), Join(CanonAll(table, MapEach(ts, FoldChar)), " "), t);
  }

  lemma EndsLike(key: string, j: string, last: string)
    requires key == "name:" + j && j != [] && (EndsIn(j, ':') <==> EndsIn(last, ':'))
    ensures EndsIn(key, ':') <==> EndsIn(last, ':')
  {
    PrefixedEnd(j);
  }

  lemma BlankNameKey(table: SuffixTable, name: string)
    requires StripBlanks(name) == []
    ensures KeyWith(table, name) == "name:"
  {
    SplitOfStripped(name);
    KeyTokensAre(name);
    assert MapEach([], FoldChar) == [];
    assert CanonAll(table, []) == [];
  }

  lemma RecordableUnlessColon(table: SuffixTable, name: string)
    ensures Recordable(KeyWith(table, name)) <==> !EndsIn(KeyWith(table, name), ':')
  {
    KeyIsNotBlank(table, name);
  }

  // A name leaves a usable tombstone exactly when its last character that is not blank exists and is not ':'.
  lemma RecordableIff(table: SuffixTable, name: string)
    ensures Recordable(KeyWith(table, name)) <==> StripBlanks(name) != [] && !EndsIn(StripBlanks(name), ':')
  {
    RecordableUnlessColon(table, name);
    if StripBlanks(name) == [] {
      BlankNameKey(table, name);
    } else {
      KeyEndsLikeName(table, name);
    }
  }

  lemma KeyEndsLikeName(table: SuffixTable, name: string)
    requires StripBlanks(name) != []
    ensures EndsIn(KeyWith(table, name), ':') <==> EndsIn(StripBlanks(name), ':')
  {
    var t := LastToken(name);
    KeyEndsLikeLastToken(table, name, t);
  }

  lemma {:induction false} StripBlanksEnds(s: string)
    ensures var r := StripBlanks(s); r != [] ==> !Blank(r[|r| - 1])
  {
    if s != [] && Blank(s[|s| - 1]) { StripBlanksEnds(s[..|s| - 1]); }
  }

  lemma KeyIsNotBlank(table: SuffixTable, name: string)
    ensures Trim(KeyWith(table, name)) != []
  {
    assert KeyWith(table, name)[0] == 'n';
    TrimRightKeeps(KeyWith(table, name));
  }

  lemma CanonLaws(table: SuffixTable, t: string)
    ensures Canon(table, Canon(table, t)) == Canon(table, t)
    ensures t in table ==> Solid(table[t], Blank) && MapChars(table[t], FoldChar) == table[t]
  {
    if t in table {
      forall k | 0 <= k < |table[t]| ensures FoldChar(table[t][k]) == table[t][k] {
        assert table[t][k] in table[t];
      }
    }
  }

  // Normalising a key again changes nothing.
  lemma KeyIsIdempotent(table: SuffixTable, name: string)
    ensures KeyWith(table, Join(CanonAll(table, KeyTokens(name)), " ")) == KeyWith(table, name)
  {
    var ts, ks := Split(name, Blank), KeyTokens(name);
    var cs := CanonAll(table, ks);
    KeyTokensAre(name);
    forall i | 0 <= i < |cs|
      ensures Solid(cs[i], Blank) && MapChars(cs[i], FoldChar) == cs[i] && Canon(table, cs[i]) == cs[i]
    {
      CanonLaws(table, ks[i]);
      assert ts[i] in ts;
      forall k | 0 <= k < |ks[i]| ensures !Blank(ks[i][k]) && FoldChar(ks[i][k]) == ks[i][k] {
        assert ts[i][k] in ts[i];
        FoldIsFolded(ts[i][k]);
        FoldKeepsBlanks(ts[i][k]);
      }
    }
    SplitJoined(cs, Blank, ' ');
    KeyTokensAre(Join(cs, " "));
    assert MapEach(cs, FoldChar) == cs;
    assert CanonAll(table, cs) == cs;
  }
}
