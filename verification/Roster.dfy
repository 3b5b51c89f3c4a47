/**
 The DJEN roster protocol: which parties of a case a poll hands on, given the parties already seen.

 Each new party is first handled, if its pole is "P", and then recorded in the snapshot; a poll can
 fail between any two of these writes.
 */
module Roster {
  import opened Text

  datatype Recipient = Recipient(nome: string, polo: string, communication: int)

  datatype Item = Item(recipients: seq<Recipient>, link: string, text: string, tribunal: string)

  datatype Party = Party(nome: string, polo: string, communication: int, link: string, text: string, tribunal: string)

  // ----- Keys -----

  function Unaccented(c: char): char {
    if c in {'Á', 'À', 'Â', 'Ã', 'Ä'} then 'A'
    else if c in {'É', 'È', 'Ê', 'Ë'} then 'E'
    else if c in {'Í', 'Ì', 'Î', 'Ï'} then 'I'
    else if c in {'Ó', 'Ò', 'Ô', 'Õ', 'Ö'} then 'O'
    else if c in {'Ú', 'Ù', 'Û', 'Ü'} then 'U'
    else if c == 'Ç' then 'C'
    else if c == 'Ñ' then 'N'
    else c
  }

  function NormalizeName(s: string): string {
    Join(Fields(MapChars(ToUpper(Trim(s)), Unaccented)), " ")
  }

  function NormalizePole(polo: string): string { ToUpper(Trim(polo)) }

  function PartyKey(nome: string, polo: string): string { NormalizeName(nome) + "|" + NormalizePole(polo) }

  function KeyOf(p: Party): string { PartyKey(p.nome, p.polo) }

  // The bar of one key falls inside the other's name or pole: q's name is p's followed by the part of
  // p's pole before its bar.
  predicate Shifted(p: Party, q: Party) {
    var n, m := NormalizeName(p.nome), NormalizeName(q.nome);
    |n| < |m| && m[..|n|] == n && m[|n|] == '|' && NormalizePole(p.polo) == m[|n| + 1..] + "|" + NormalizePole(q.polo)
  }

  // Two parties share a key exactly when their normalized names and poles agree, or one is the other
  // with the separator shifted, which takes a pole that holds a '|'.
  lemma KeyIff(p: Party, q: Party)
    ensures KeyOf(p) == KeyOf(q) <==>
              || (NormalizeName(p.nome) == NormalizeName(q.nome) && NormalizePole(p.polo) == NormalizePole(q.polo))
              || Shifted(p, q) || Shifted(q, p)
    ensures Shifted(p, q) ==> '|' in NormalizePole(p.polo)
  {
    if |NormalizeName(p.nome)| <= |NormalizeName(q.nome)| {
      BarsIff(NormalizeName(p.nome), NormalizePole(p.polo), NormalizeName(q.nome), NormalizePole(q.polo));
    } else {
      BarsIff(NormalizeName(q.nome), NormalizePole(q.polo), NormalizeName(p.nome), NormalizePole(p.polo));
    }
    if Shifted(p, q) {
      var n, m := NormalizeName(p.nome), NormalizeName(q.nome);
      assert NormalizePole(p.polo)[|m| - |n| - 1] == '|';
    }
  }

  lemma BarsIff(n: string, p: string, m: string, q: string)
    requires |n| <= |m|
    ensures n + "|" + p == m + "|" + q <==>
              (n == m && p == q) || (|n| < |m| && m[..|n|] == n && m[|n|] == '|' && p == m[|n| + 1..] + "|" + q)
  {
    var s, t := n + "|" + p, m + "|" + q;
    assert s[..|n|] == n && s[|n| + 1..] == p && s[|n|] == '|';
    assert t[..|n|] == m[..|n|];
    if |n| < |m| {
      assert t[|n|] == m[|n|] && t[|n| + 1..] == m[|n| + 1..] + "|" + q;
      assert m[..|n|] == n && m[|n|] == '|' ==> m == n + "|" + m[|n| + 1..];
    } else {
      assert t[..|n|] == m && t[|n| + 1..] == q;
    }
  }

  lemma PlainLetter(c: char)
    requires 'A' <= c <= 'Z' || c == '|'
    ensures !IsSpace(c) && UpperChar(c) == c && Unaccented(c) == c
  {
  }

  predicate Word(t: string) { t != "" && forall c | c in t :: 'A' <= c <= 'Z' || c == '|' }

  lemma WordIsNormal(t: string)
    requires Word(t)
    ensures NormalizeName(t) == t && NormalizePole(t) == t
  {
    forall c | c in t ensures !IsSpace(c) && UpperChar(c) == c && Unaccented(c) == c { PlainLetter(c); }
    assert t[0] in t && t[|t| - 1] in t;
    TrimmedIsTight(t);
    assert forall i | 0 <= i < |t| :: t[i] in t;
    assert ToUpper(t) == t && MapChars(t, Unaccented) == t;
    SplitOfToken(t, "", IsSpace);
    assert t + "" == t && Fields(t) == [t];
  }

  lemma KeyOfWords(p: Party)
    requires Word(p.nome) && Word(p.polo)
    ensures KeyOf(p) == p.nome + "|" + p.polo
  {
    WordIsNormal(p.nome);
    WordIsNormal(p.polo);
  }

  // The separator is not escaped: "A" with pole "B|C" and "A|B" with pole "C" share a key, and so do
  // any three words split either way.
  lemma BarCollides(p: Party, q: Party, a: string, b: string, c: string)
    requires Word(a) && Word(b) && Word(c)
    requires p.nome == a && p.polo == b + "|" + c && q.nome == a + "|" + b && q.polo == c
    ensures KeyOf(p) == KeyOf(q)
  {
    KeyOfWords(p);
    KeyOfWords(q);
    assert a + "|" + (b + "|" + c) == (a + "|" + b) + "|" + c;
  }

  // ----- The roster of one poll -----

  function Entry(it: Item, d: Recipient): seq<Party> {
    if Trim(d.nome) == "" || Trim(d.polo) == "" then []
    else [Party(Trim(d.nome), Trim(d.polo), d.communication, it.link, it.text, it.tribunal)]
  }

  function Entries(it: Item, ds: seq<Recipient>): seq<Party> {
    if ds == [] then [] else Entries(it, ds[..|ds| - 1]) + Entry(it, ds[|ds| - 1])
  }

  // Every named party with a pole, in the order the communications list them.
  function Mentions(items: seq<Item>): seq<Party> {
    if items == [] then []
    else Mentions(items[..|items| - 1]) + Entries(items[|items| - 1], items[|items| - 1].recipients)
  }

  // The key under which parties are told apart is `key`; in the worker it is KeyOf.
  function Keys(key: Party -> string, ps: seq<Party>): set<string> {
    if ps == [] then {} else Keys(key, ps[..|ps| - 1]) + {key(ps[|ps| - 1])}
  }

  // The first mention of each key.
  function FirstSeen(key: Party -> string, ps: seq<Party>): seq<Party> {
    if ps == [] then []
    else
      FirstSeenThen(key, FirstSeen(key, ps[..|ps| - 1]), ps[|ps| - 1])
  }

  function RosterOf(key: Party -> string, items: seq<Item>): seq<Party> { FirstSeen(key, Mentions(items)) }

  method RosterFromItems(key: Party -> string, items: seq<Item>) returns (out: seq<Party>)
    ensures out == RosterOf(key, items)
  {
    var seen: set<string> := {};
    out := [];
    for i := 0 to |items|
      invariant out == FirstSeen(key, Mentions(items[..i])) && seen == Keys(key, out)
    {
      assert items[..i + 1][..i] == items[..i];
      out, seen := AddItem(key, items[i], out, seen, Mentions(items[..i]));
    }
    assert items[..|items|] == items;
  }

  // The recipients of one communication, after the mentions `earlier`.
  method AddItem(key: Party -> string, it: Item, roster: seq<Party>, known: set<string>, ghost earlier: seq<Party>)
    returns (out: seq<Party>, seen: set<string>)
    requires roster == FirstSeen(key, earlier) && known == Keys(key, roster)
    ensures out == FirstSeen(key, earlier + Entries(it, it.recipients)) && seen == Keys(key, out)
  {
    out, seen := roster, known;
    assert earlier + [] == earlier;
    for j := 0 to |it.recipients|
      invariant out == FirstSeen(key, earlier + Entries(it, it.recipients[..j])) && seen == Keys(key, out)
    {
      var d := it.recipients[j];
      ghost var before := Entries(it, it.recipients[..j]);
      OneMoreRecipient(it, j);
      var nome, polo := Trim(d.nome), Trim(d.polo);
      if nome == "" || polo == "" {
        continue;
      }
      var p := Party(nome, polo, d.communication, it.link, it.text, it.tribunal);
      Appended(key, earlier, before, p);
      var k := key(p);
      if k in seen {
        continue;
      }
      KeysAppend(key, out, p);
      seen := seen + {k};
      out := out + [p];
    }
    assert it.recipients[..|it.recipients|] == it.recipients;
  }

  lemma OneMoreRecipient(it: Item, j: nat)
    requires j < |it.recipients|
    ensures var d, before := it.recipients[j], Entries(it, it.recipients[..j]);
            Entries(it, it.recipients[..j + 1]) ==
              if Trim(d.nome) == "" || Trim(d.polo) == "" then before
              else before + [Party(Trim(d.nome), Trim(d.polo), d.communication, it.link, it.text, it.tribunal)]
  {
    assert it.recipients[..j + 1][..j] == it.recipients[..j];
  }

  lemma Appended(key: Party -> string, a: seq<Party>, b: seq<Party>, p: Party)
    ensures a + (b + [p]) == (a + b) + [p]
    ensures FirstSeen(key, a + (b + [p])) == FirstSeenThen(key, FirstSeen(key, a + b), p)
  {
    var all := a + (b + [p]);
    assert all[..|all| - 1] == a + b && all[|all| - 1] == p;
  }

  function FirstSeenThen(key: Party -> string, before: seq<Party>, p: Party): seq<Party> {
    if key(p) in Keys(key, before) then before else before + [p]
  }

  lemma KeysAppend(key: Party -> string, ps: seq<Party>, p: Party)
    ensures Keys(key, ps + [p]) == Keys(key, ps) + {key(p)}
  {
    assert (ps + [p])[..|ps|] == ps;
  }

  lemma {:induction false} KeysHas(key: Party -> string, ps: seq<Party>, k: string)
    ensures k in Keys(key, ps) <==> exists i | 0 <= i < |ps| :: key(ps[i]) == k
  {
    if ps != [] {
      KeysHas(key, ps[..|ps| - 1], k);
      assert forall i | 0 <= i < |ps| - 1 :: ps[..|ps| - 1][i] == ps[i];
    }
  }

  lemma {:induction false} KeysUnion(key: Party -> string, a: seq<Party>, b: seq<Party>)
    ensures Keys(key, a + b) == Keys(key, a) + Keys(key, b)
  {
    if b == [] {
      assert a + b == a;
    } else {
      KeysUnion(key, a, b[..|b| - 1]);
      assert (a + b)[..|a + b| - 1] == a + b[..|b| - 1];
    }
  }

  // ----- What a roster is -----

  ghost predicate DistinctKeys(key: Party -> string, ps: seq<Party>) {
    forall i, j | 0 <= i < j < |ps| :: key(ps[i]) != key(ps[j])
  }

  // p is the first mention of its key.
  ghost predicate FirstMention(key: Party -> string, ps: seq<Party>, i: nat) {
    i < |ps| && forall j | 0 <= j < i :: key(ps[j]) != key(ps[i])
  }

  lemma {:induction false} RosterCovers(key: Party -> string, ps: seq<Party>)
    ensures Keys(key, FirstSeen(key, ps)) == Keys(key, ps)
  {
    if ps != [] {
      RosterCovers(key, ps[..|ps| - 1]);
      KeysAppend(key, FirstSeen(key, ps[..|ps| - 1]), ps[|ps| - 1]);
    }
  }

  lemma {:induction false} RosterIsDistinct(key: Party -> string, ps: seq<Party>)
    ensures DistinctKeys(key, FirstSeen(key, ps))
  {
    if ps != [] {
      var before, last := FirstSeen(key, ps[..|ps| - 1]), ps[|ps| - 1];
      RosterIsDistinct(key, ps[..|ps| - 1]);
      KeysHas(key, before, key(last));
    }
  }

  // The roster has every key mentioned, once, with the evidence of its first mention.
  lemma {:induction false} RosterIsExact(key: Party -> string, ps: seq<Party>)
    ensures DistinctKeys(key, FirstSeen(key, ps)) && Keys(key, FirstSeen(key, ps)) == Keys(key, ps)
    ensures forall p :: p in FirstSeen(key, ps) <==> exists i: nat :: FirstMention(key, ps, i) && ps[i] == p
  {
    RosterCovers(key, ps);
    RosterIsDistinct(key, ps);
    if ps != [] {
      var init, last := ps[..|ps| - 1], ps[|ps| - 1];
      RosterIsExact(key, init);
      assert ps == init + [last];
      forall p ensures p in FirstSeen(key, ps) <==> exists i: nat :: FirstMention(key, ps, i) && ps[i] == p {
        OneMoreMention(key, init, last, p);
      }
    }
  }

  lemma OneMoreMention(key: Party -> string, init: seq<Party>, last: Party, p: Party)
    requires p in FirstSeen(key, init) <==> exists i: nat :: FirstMention(key, init, i) && init[i] == p
    ensures p in FirstSeen(key, init + [last]) <==>
              exists i: nat :: FirstMention(key, init + [last], i) && (init + [last])[i] == p
  {
    var ps, before := init + [last], FirstSeen(key, init);
    assert ps[..|init|] == init && ps[|init|] == last;
    forall i: nat | i < |init| ensures (FirstMention(key, ps, i) <==> FirstMention(key, init, i)) && ps[i] == init[i] {}
    RosterCovers(key, init);
    KeysHas(key, init, key(last));
    assert FirstMention(key, ps, |init|) <==> key(last) !in Keys(key, init);
    assert p in FirstSeen(key, ps) <==> p in before || (p == last && key(last) !in Keys(key, init));
  }

  // ----- Successive polls of one case -----

  function Delta(key: Party -> string, roster: seq<Party>, existing: set<string>): seq<Party> {
    if roster == [] then []
    else
      var before, p := Delta(key, roster[..|roster| - 1], existing), roster[|roster| - 1];
      if key(p) in existing then before else before + [p]
  }

  method RosterDelta(key: Party -> string, roster: seq<Party>, existing: set<string>) returns (out: seq<Party>)
    ensures out == Delta(key, roster, existing)
  {
    out := [];
    for i := 0 to |roster|
      invariant out == Delta(key, roster[..i], existing)
    {
      assert roster[..i + 1][..i] == roster[..i];
      if key(roster[i]) in existing {
        continue;
      }
      out := out + [roster[i]];
    }
    assert roster[..|roster|] == roster;
  }

  // A poll of the case's communications. It handles and records its first `recorded` new parties; if
  // there are more, a write fails: at the handling of the next one, or, midway, between the handling of
  // that one and its recording.
  datatype Poll = Poll(items: seq<Item>, recorded: nat, midway: bool)

  function Take(ps: seq<Party>, n: nat): seq<Party> { if n < |ps| then ps[..n] else ps }

  function Defendants(ps: seq<Party>): seq<Party> {
    if ps == [] then []
    else
      var before, p := Defendants(ps[..|ps| - 1]), ps[|ps| - 1];
      if p.polo == "P" then before + [p] else before
  }

  // snapshot: the keys recorded; recorded: the parties this history recorded; handled: the defendants
  // it acted on, each time it did.
  datatype Case = Case(snapshot: set<string>, recorded: seq<Party>, handled: seq<Party>)

  function Fresh(snapshot: set<string>): Case { Case(snapshot, [], []) }

  function New(key: Party -> string, c: Case, p: Poll): seq<Party> { Delta(key, RosterOf(key, p.items), c.snapshot) }

  // The party a poll handles without recording it.
  function Dropped(key: Party -> string, c: Case, p: Poll): seq<Party> {
    var delta := New(key, c, p);
    if p.midway && p.recorded < |delta| then [delta[p.recorded]] else []
  }

  function Next(key: Party -> string, c: Case, p: Poll): Case {
    var done := Take(New(key, c, p), p.recorded);
    Case(c.snapshot + Keys(key, done), c.recorded + done, c.handled + Defendants(done) + Defendants(Dropped(key, c, p)))
  }

  function Run(key: Party -> string, c: Case, polls: seq<Poll>): Case {
    if polls == [] then c else Next(key, Run(key, c, polls[..|polls| - 1]), polls[|polls| - 1])
  }

  lemma DefendantsAppend(ps: seq<Party>, p: Party)
    ensures Defendants(ps + [p]) == Defendants(ps) + if p.polo == "P" then [p] else []
  {
    assert (ps + [p])[..|ps|] == ps;
  }

  // The parties `done` handled and recorded.
  function After(key: Party -> string, c: Case, done: seq<Party>): Case {
    Case(c.snapshot + Keys(key, done), c.recorded + done, c.handled + Defendants(done))
  }

  lemma GoesThrough(key: Party -> string, c: Case, p: Poll, delta: seq<Party>)
    requires delta == New(key, c, p) && |delta| <= p.recorded
    ensures Next(key, c, p) == After(key, c, delta)
  {
    assert Dropped(key, c, p) == [];
    NothingAdded(c.handled + Defendants(delta));
  }

  lemma FailsAt(key: Party -> string, c: Case, p: Poll, delta: seq<Party>, n: nat)
    requires delta == New(key, c, p) && n == p.recorded < |delta|
    ensures var done := After(key, c, delta[..n]);
            Next(key, c, p) == done.(handled := done.handled + if p.midway && delta[n].polo == "P" then [delta[n]] else [])
    ensures !p.midway ==> Next(key, c, p) == After(key, c, delta[..n])
  {
    var dropped := if p.midway then [delta[n]] else [];
    assert Dropped(key, c, p) == dropped;
    DefendantsOfOne(delta[n]);
    NothingAdded(After(key, c, delta[..n]).handled);
  }

  lemma DefendantsOfOne(p: Party)
    ensures Defendants([p]) == (if p.polo == "P" then [p] else []) && Defendants([]) == []
  {
    assert [p][..0] == [] && [] + [p] == [p];
  }

  lemma NothingAdded(ps: seq<Party>)
    ensures ps + [] == ps
  {
  }

  class CaseRoster {
    const key: Party -> string
    var snapshot: set<string>
    ghost var recorded: seq<Party>
    var handled: seq<Party>

    constructor (key: Party -> string, snapshot: set<string>)
      ensures State() == Fresh(snapshot) && this.key == key
    {
      this.key, this.snapshot, recorded, handled := key, snapshot, [], [];
    }

    ghost function State(): Case
      reads this
    {
      Case(snapshot, recorded, handled)
    }

    // A party is acted on only if its pole is exactly "P".
    method Handle(p: Party)
      modifies this`handled
      ensures handled == old(handled) + if p.polo == "P" then [p] else []
    {
      if p.polo == "P" {
        handled := handled + [p];
      }
    }

    method Record(p: Party)
      modifies this`recorded, this`snapshot
      ensures recorded == old(recorded) + [p] && snapshot == old(snapshot) + {key(p)}
    {
      recorded := recorded + [p];
      snapshot := snapshot + {key(p)};
    }

    // One poll, with the write that fails, if one does.
    method PollCase(items: seq<Item>, limit: nat, midway: bool) returns (ok: bool)
      modifies this
      ensures State() == Next(key, old(State()), Poll(items, limit, midway))
      ensures ok <==> |Delta(key, RosterOf(key, items), old(snapshot))| <= limit
    {
      var roster := RosterFromItems(key, items);
      var delta := RosterDelta(key, roster, snapshot);
      ghost var c, p := State(), Poll(items, limit, midway);
      for i := 0 to |delta|
        invariant i <= limit
        invariant State() == After(key, c, delta[..i])
      {
        if i == limit { FailsAt(key, c, p, delta, i); }
        if i == limit && !midway {
          return false;
        }
        Handle(delta[i]);
        if i == limit {
          return false;
        }
        Record(delta[i]);
        OneMoreRecorded(key, c, delta, i);
      }
      assert delta[..|delta|] == delta;
      GoesThrough(key, c, p, delta);
      return true;
    }
  }

  lemma OneMoreRecorded(key: Party -> string, c: Case, delta: seq<Party>, i: nat)
    requires i < |delta|
    ensures var p, before, after := delta[i], After(key, c, delta[..i]), After(key, c, delta[..i + 1]);
            && after.snapshot == before.snapshot + {key(p)} && after.recorded == before.recorded + [p]
            && after.handled == before.handled + if p.polo == "P" then [p] else []
  {
    assert delta[..i + 1] == delta[..i] + [delta[i]];
    KeysAppend(key, delta[..i], delta[i]);
    DefendantsAppend(delta[..i], delta[i]);
    assert c.recorded + delta[..i + 1] == (c.recorded + delta[..i]) + [delta[i]];
    Regroup(c.handled, Defendants(delta[..i]), if delta[i].polo == "P" then [delta[i]] else []);
  }

  lemma {:induction false} DeltaKeys(key: Party -> string, roster: seq<Party>, existing: set<string>)
    ensures Keys(key, Delta(key, roster, existing)) == Keys(key, roster) - existing
  {
    if roster != [] {
      DeltaKeys(key, roster[..|roster| - 1], existing);
      KeysAppend(key, Delta(key, roster[..|roster| - 1], existing), roster[|roster| - 1]);
    }
  }

  // The new parties are told apart, and are exactly those of the roster not seen before.
  lemma {:induction false} DeltaIsFresh(key: Party -> string, roster: seq<Party>, existing: set<string>)
    requires DistinctKeys(key, roster)
    ensures DistinctKeys(key, Delta(key, roster, existing))
    ensures Keys(key, Delta(key, roster, existing)) == Keys(key, roster) - existing
  {
    DeltaKeys(key, roster, existing);
    if roster != [] {
      var init, last := roster[..|roster| - 1], roster[|roster| - 1];
      DeltaIsFresh(key, init, existing);
      LastIsNew(key, init, last, roster);
      DeltaKeys(key, init, existing);
      JoinDistinct(key, Delta(key, init, existing), [last]);
    }
  }

  lemma LastIsNew(key: Party -> string, init: seq<Party>, last: Party, roster: seq<Party>)
    requires roster == init + [last] && DistinctKeys(key, roster)
    ensures key(last) !in Keys(key, init) && Keys(key, [last]) == {key(last)}
  {
    KeysHas(key, init, key(last));
    assert forall i | 0 <= i < |init| :: init[i] == roster[i] && key(roster[i]) != key(roster[|init|]);
    assert [last][..0] == [];
  }

  // No party is recorded twice, whatever polls fail part-way, and the snapshot is what was recorded.
  lemma {:induction false} RecordedOnce(key: Party -> string, c: Case, polls: seq<Poll>)
    requires DistinctKeys(key, c.recorded) && Keys(key, c.recorded) <= c.snapshot
    ensures DistinctKeys(key, Run(key, c, polls).recorded) && Keys(key, Run(key, c, polls).recorded) <= Run(key, c, polls).snapshot
    ensures Run(key, c, polls).snapshot == c.snapshot + Keys(key, Run(key, c, polls).recorded)
  {
    if polls != [] {
      RecordedOnce(key, c, polls[..|polls| - 1]);
      NextRecordsOnce(key, Run(key, c, polls[..|polls| - 1]), polls[|polls| - 1]);
    }
  }

  lemma NextRecordsOnce(key: Party -> string, c: Case, p: Poll)
    requires DistinctKeys(key, c.recorded) && Keys(key, c.recorded) <= c.snapshot
    ensures DistinctKeys(key, Next(key, c, p).recorded) && Keys(key, Next(key, c, p).recorded) <= Next(key, c, p).snapshot
    ensures Keys(key, Next(key, c, p).recorded) == Keys(key, c.recorded) + (Next(key, c, p).snapshot - c.snapshot)
    ensures c.snapshot <= Next(key, c, p).snapshot
  {
    RosterIsDistinct(key, Mentions(p.items));
    var delta := New(key, c, p);
    DeltaIsFresh(key, RosterOf(key, p.items), c.snapshot);
    PrefixKeys(key, delta, Take(delta, p.recorded));
    KeysUnion(key, c.recorded, Take(delta, p.recorded));
    JoinDistinct(key, c.recorded, Take(delta, p.recorded));
  }

  lemma PrefixKeys(key: Party -> string, ps: seq<Party>, prefix: seq<Party>)
    requires prefix <= ps && DistinctKeys(key, ps)
    ensures DistinctKeys(key, prefix) && Keys(key, prefix) <= Keys(key, ps)
  {
    assert ps == prefix + ps[|prefix|..];
    KeysUnion(key, prefix, ps[|prefix|..]);
  }

  lemma JoinDistinct(key: Party -> string, a: seq<Party>, b: seq<Party>)
    requires DistinctKeys(key, a) && DistinctKeys(key, b) && Keys(key, a) !! Keys(key, b)
    ensures DistinctKeys(key, a + b)
  {
    forall i, j | 0 <= i < j < |a + b| ensures key((a + b)[i]) != key((a + b)[j]) {
      if i < |a| <= j {
        KeysHas(key, a, key(a[i]));
        KeysHas(key, b, key(b[j - |a|]));
      }
    }
  }

  // ----- How often a party is handled -----

  function Count(key: Party -> string, ps: seq<Party>, k: string): nat {
    if ps == [] then 0 else Count(key, ps[..|ps| - 1], k) + if key(ps[|ps| - 1]) == k then 1 else 0
  }

  lemma {:induction false} CountAppend(key: Party -> string, a: seq<Party>, b: seq<Party>, k: string)
    ensures Count(key, a + b, k) == Count(key, a, k) + Count(key, b, k)
  {
    if b == [] {
      assert a + b == a;
    } else {
      CountAppend(key, a, b[..|b| - 1], k);
      assert (a + b)[..|a + b| - 1] == a + b[..|b| - 1];
    }
  }

  lemma {:induction false} CountNone(key: Party -> string, ps: seq<Party>, k: string)
    ensures Count(key, ps, k) == 0 <==> k !in Keys(key, ps)
  {
    if ps != [] { CountNone(key, ps[..|ps| - 1], k); }
  }

  lemma {:induction false} CountDistinct(key: Party -> string, ps: seq<Party>, k: string)
    requires DistinctKeys(key, ps)
    ensures Count(key, ps, k) == if k in Keys(key, ps) then 1 else 0
  {
    if ps != [] {
      var init, last := ps[..|ps| - 1], ps[|ps| - 1];
      CountDistinct(key, init, k);
      LastOf(ps);
      LastIsNew(key, init, last, ps);
    }
  }

  lemma {:induction false} DefendantsUnion(a: seq<Party>, b: seq<Party>)
    ensures Defendants(a + b) == Defendants(a) + Defendants(b)
  {
    if b == [] {
      assert a + b == a;
    } else {
      var init, last := b[..|b| - 1], b[|b| - 1];
      DefendantsUnion(a, init);
      LastOf(b);
      DefendantsAppend(a + init, last);
      DefendantsAppend(init, last);
      var more := if last.polo == "P" then [last] else [];
      assert a + b == (a + init) + [last];
      Regroup(Defendants(a), Defendants(init), more);
    }
  }

  lemma {:induction false} DefendantsHave(ps: seq<Party>, p: Party)
    ensures p in Defendants(ps) <==> p in ps && p.polo == "P"
  {
    if ps != [] {
      DefendantsHave(ps[..|ps| - 1], p);
      LastOf(ps);
    }
  }

  lemma {:induction false} DefendantsDistinct(key: Party -> string, ps: seq<Party>)
    requires DistinctKeys(key, ps)
    ensures DistinctKeys(key, Defendants(ps)) && Keys(key, Defendants(ps)) <= Keys(key, ps)
  {
    if ps != [] {
      var init, last := ps[..|ps| - 1], ps[|ps| - 1];
      DefendantsDistinct(key, init);
      LastOf(ps);
      LastIsNew(key, init, last, ps);
      KeysAppend(key, Defendants(init), last);
      JoinDistinct(key, Defendants(init), [last]);
    }
  }

  // Polls that failed between handling a defendant of key k and recording it.
  function Stops(key: Party -> string, c: Case, polls: seq<Poll>, k: string): nat {
    if polls == [] then 0
    else
      var init := polls[..|polls| - 1];
      Stops(key, c, init, k) + Count(key, Defendants(Dropped(key, Run(key, c, init), polls[|polls| - 1])), k)
  }

  lemma {:induction false} HandlingsAddUp(key: Party -> string, snapshot: set<string>, polls: seq<Poll>, k: string)
    ensures var c, t := Fresh(snapshot), Run(key, Fresh(snapshot), polls);
            Count(key, t.handled, k) == Count(key, Defendants(t.recorded), k) + Stops(key, c, polls, k)
  {
    if polls != [] {
      var init, p := polls[..|polls| - 1], polls[|polls| - 1];
      HandlingsAddUp(key, snapshot, init, k);
      NextHandles(key, Run(key, Fresh(snapshot), init), p, k);
    }
  }

  lemma NextHandles(key: Party -> string, c: Case, p: Poll, k: string)
    ensures Count(key, Next(key, c, p).handled, k) - Count(key, c.handled, k)
         == Count(key, Defendants(Next(key, c, p).recorded), k) - Count(key, Defendants(c.recorded), k)
            + Count(key, Defendants(Dropped(key, c, p)), k)
  {
    var done := Take(New(key, c, p), p.recorded);
    CountAppend(key, c.handled + Defendants(done), Defendants(Dropped(key, c, p)), k);
    CountAppend(key, c.handled, Defendants(done), k);
    DefendantsUnion(c.recorded, done);
    CountAppend(key, Defendants(c.recorded), Defendants(done), k);
  }

  /**
   How often a party is handled, whatever polls fail and wherever: once when it was recorded as a
   defendant, and once more for each poll that failed between handling it and recording it.
   */
  lemma HandledHowOften(key: Party -> string, snapshot: set<string>, polls: seq<Poll>, k: string)
    ensures var t := Run(key, Fresh(snapshot), polls);
            Count(key, t.handled, k) ==
              (if k in Keys(key, Defendants(t.recorded)) then 1 else 0) + Stops(key, Fresh(snapshot), polls, k)
  {
    var t := Run(key, Fresh(snapshot), polls);
    RecordedOnce(key, Fresh(snapshot), polls);
    HandlingsAddUp(key, snapshot, polls, k);
    DefendantsDistinct(key, t.recorded);
    CountDistinct(key, Defendants(t.recorded), k);
  }

  // A recorded defendant was handled exactly once if and only if no poll failed at that point.
  lemma HandledOnceIff(key: Party -> string, snapshot: set<string>, polls: seq<Poll>, k: string)
    requires k in Keys(key, Defendants(Run(key, Fresh(snapshot), polls).recorded))
    ensures Count(key, Run(key, Fresh(snapshot), polls).handled, k) == 1 <==> Stops(key, Fresh(snapshot), polls, k) == 0
  {
    HandledHowOften(key, snapshot, polls, k);
  }

  // One failed write is enough: the next poll of the same communications handles the defendant again.
  lemma TwoPollsHandleTwice(key: Party -> string, items: seq<Item>, p: Party)
    requires RosterOf(key, items) == [p] && p.polo == "P"
    ensures Run(key, Fresh({}), [Poll(items, 0, true), Poll(items, 1, false)]) == Case({key(p)}, [p], [p, p])
  {
    var a, b := Poll(items, 0, true), Poll(items, 1, false);
    assert [p][..0] == [] && [] + [p] == [p];
    DefendantsAppend([], p);
    assert Delta(key, [p], {}) == [p];
    assert Keys(key, [p]) == {key(p)};
    var one := Next(key, Fresh({}), a);
    assert one == Case({}, [], [p]);
    assert Next(key, one, b) == Case({key(p)}, [p], [p, p]);
    assert [a, b][..1] == [a] && [a][..0] == [];
    assert Run(key, Fresh({}), [a]) == Next(key, Run(key, Fresh({}), []), a);
    assert Run(key, Fresh({}), [a, b]) == Next(key, Run(key, Fresh({}), [a]), b);
  }

  // Such communications exist.
  lemma AnaIsHandledTwice()
    ensures var items := [Item([Recipient("ANA", "P", 1)], "", "", "TRF1")];
            var ana := Party("ANA", "P", 1, "", "", "TRF1");
            Run(KeyOf, Fresh({}), [Poll(items, 0, true), Poll(items, 1, false)]).handled == [ana, ana]
  {
    var d := Recipient("ANA", "P", 1);
    var it := Item([d], "", "", "TRF1");
    OneMention(it, d);
    OneEntry(KeyOf, Party("ANA", "P", 1, "", "", "TRF1"));
    TwoPollsHandleTwice(KeyOf, [it], Party("ANA", "P", 1, "", "", "TRF1"));
  }

  lemma OneMention(it: Item, d: Recipient)
    requires it.recipients == [d]
    ensures Mentions([it]) == Entry(it, d)
  {
    assert [d][..0] == [] && [it][..0] == [];
    assert Entries(it, [d]) == [] + Entry(it, d);
    assert Mentions([it]) == [] + Entries(it, [d]);
  }

  lemma OneEntry(key: Party -> string, p: Party)
    ensures FirstSeen(key, [p]) == [p]
  {
    assert [p][..0] == [] && [] + [p] == [p];
  }

  // ----- Many polls are one -----

  function AllItems(polls: seq<Poll>): seq<Item> {
    if polls == [] then [] else AllItems(polls[..|polls| - 1]) + polls[|polls| - 1].items
  }

  // No poll of the run fails part-way.
  ghost predicate Complete(key: Party -> string, c: Case, polls: seq<Poll>) {
    polls == [] ||
    (&& Complete(key, c, polls[..|polls| - 1])
     && |New(key, Run(key, c, polls[..|polls| - 1]), polls[|polls| - 1])| <= polls[|polls| - 1].recorded)
  }

  lemma Regroup(a: seq<Party>, b: seq<Party>, c: seq<Party>)
    ensures a + (b + c) == (a + b) + c
  {
  }

  lemma {:induction false} MentionsAppend(a: seq<Item>, b: seq<Item>)
    ensures Mentions(a + b) == Mentions(a) + Mentions(b)
  {
    if b == [] {
      assert a + b == a;
    } else {
      var init, last := b[..|b| - 1], b[|b| - 1];
      MentionsAppend(a, init);
      var all, more := a + b, Entries(last, last.recipients);
      assert all[..|all| - 1] == a + init && all[|all| - 1] == last;
      Regroup(Mentions(a), Mentions(init), more);
    }
  }

  lemma LastOf(ps: seq<Party>)
    requires ps != []
    ensures ps == ps[..|ps| - 1] + [ps[|ps| - 1]]
  {
  }

  lemma FirstSeenSnoc(key: Party -> string, ps: seq<Party>, p: Party)
    ensures FirstSeen(key, ps + [p]) == FirstSeenThen(key, FirstSeen(key, ps), p)
  {
    assert (ps + [p])[..|ps|] == ps;
  }

  lemma {:induction false} FirstSeenAppend(key: Party -> string, a: seq<Party>, b: seq<Party>)
    ensures FirstSeen(key, a + b) == FirstSeen(key, a) + Delta(key, FirstSeen(key, b), Keys(key, a))
  {
    if b == [] {
      assert a + b == a;
    } else {
      LastOf(b);
      FirstSeenAppend(key, a, b[..|b| - 1]);
      OneMoreSeen(key, a, b[..|b| - 1], b[|b| - 1]);
    }
  }

  lemma OneMoreSeen(key: Party -> string, a: seq<Party>, b: seq<Party>, p: Party)
    requires FirstSeen(key, a + b) == FirstSeen(key, a) + Delta(key, FirstSeen(key, b), Keys(key, a))
    ensures FirstSeen(key, a + (b + [p])) == FirstSeen(key, a) + Delta(key, FirstSeen(key, b + [p]), Keys(key, a))
  {
    Appended(key, a, b, p);
    FirstSeenSnoc(key, b, p);
    RosterCovers(key, b);
    RosterCovers(key, a + b);
    KeysUnion(key, a, b);
    OneMorePasses(key, FirstSeen(key, a), FirstSeen(key, b), p, Keys(key, a), FirstSeen(key, a + b), FirstSeen(key, b + [p]));
  }

  lemma OneMorePasses(key: Party -> string, x: seq<Party>, y: seq<Party>, p: Party, existing: set<string>, both: seq<Party>, z: seq<Party>)
    requires both == x + Delta(key, y, existing) && Keys(key, both) == existing + Keys(key, y)
    requires z == FirstSeenThen(key, y, p)
    ensures FirstSeenThen(key, both, p) == x + Delta(key, z, existing)
  {
    DeltaAppend(key, y, p, existing);
    var d := Delta(key, y, existing);
    Regroup(x, d, [p]);
    assert d + [] == d;
  }

  lemma DeltaAppend(key: Party -> string, ps: seq<Party>, p: Party, existing: set<string>)
    ensures Delta(key, ps + [p], existing) == Delta(key, ps, existing) + if key(p) in existing then [] else [p]
  {
    assert (ps + [p])[..|ps|] == ps;
  }

  lemma {:induction false} DeltaOfDelta(key: Party -> string, ps: seq<Party>, a: set<string>, b: set<string>)
    ensures Delta(key, Delta(key, ps, a), b) == Delta(key, ps, a + b)
  {
    if ps != [] {
      var init, last := ps[..|ps| - 1], ps[|ps| - 1];
      DeltaOfDelta(key, init, a, b);
      if key(last) !in a {
        DeltaAppend(key, Delta(key, init, a), last, b);
      } else {
        assert Delta(key, init, a) + [] == Delta(key, init, a);
      }
    }
  }

  lemma {:induction false} DeltaOfConcat(key: Party -> string, a: seq<Party>, b: seq<Party>, existing: set<string>)
    ensures Delta(key, a + b, existing) == Delta(key, a, existing) + Delta(key, b, existing)
  {
    if b == [] {
      assert a + b == a;
    } else {
      var init, last := b[..|b| - 1], b[|b| - 1];
      DeltaOfConcat(key, a, init, existing);
      assert a + b == (a + init) + [last];
      DeltaAppend(key, a + init, last, existing);
      var more := if key(last) in existing then [] else [last];
      Regroup(Delta(key, a, existing), Delta(key, init, existing), more);
    }
  }

  /**
   Exactly once: polls that all go through hand on what one poll of all their communications would,
   in the same order and with the same evidence. Each party is handed on by the first poll that shows
   it, and the snapshot is the union of the rosters.
   */
  lemma {:induction false} PollsAreOnePoll(key: Party -> string, snapshot: set<string>, polls: seq<Poll>)
    requires Complete(key, Fresh(snapshot), polls)
    ensures var t, all := Run(key, Fresh(snapshot), polls), RosterOf(key, AllItems(polls));
            && t.recorded == Delta(key, all, snapshot)
            && t.handled == Defendants(t.recorded)
            && t.snapshot == snapshot + Keys(key, all)
  {
    if polls != [] {
      var init, last := polls[..|polls| - 1], polls[|polls| - 1];
      PollsAreOnePoll(key, snapshot, init);
      OnePollMore(key, snapshot, Run(key, Fresh(snapshot), init), AllItems(init), last);
    }
  }

  lemma OnePollMore(key: Party -> string, snapshot: set<string>, before: Case, items: seq<Item>, p: Poll)
    requires before.recorded == Delta(key, RosterOf(key, items), snapshot) && before.handled == Defendants(before.recorded)
    requires before.snapshot == snapshot + Keys(key, RosterOf(key, items)) && |New(key, before, p)| <= p.recorded
    ensures Next(key, before, p).recorded == Delta(key, RosterOf(key, items + p.items), snapshot)
    ensures Next(key, before, p).handled == Defendants(Next(key, before, p).recorded)
    ensures Next(key, before, p).snapshot == snapshot + Keys(key, RosterOf(key, items + p.items))
  {
    var delta := New(key, before, p);
    RostersAppend(key, snapshot, items, p.items);
    DefendantsUnion(before.recorded, delta);
    assert Next(key, before, p) ==
           Case(before.snapshot + Keys(key, delta), before.recorded + delta, before.handled + Defendants(delta) + []);
  }

  lemma RostersAppend(key: Party -> string, snapshot: set<string>, items: seq<Item>, more: seq<Item>)
    ensures var seen := snapshot + Keys(key, RosterOf(key, items));
            var delta := Delta(key, RosterOf(key, more), seen);
            && Delta(key, RosterOf(key, items + more), snapshot) == Delta(key, RosterOf(key, items), snapshot) + delta
            && seen + Keys(key, delta) == snapshot + Keys(key, RosterOf(key, items + more))
  {
    var a, b := Mentions(items), Mentions(more);
    MentionsAppend(items, more);
    FirstSeenAppend(key, a, b);
    RosterCovers(key, a);
    RosterCovers(key, b);
    RosterCovers(key, a + b);
    KeysUnion(key, a, b);
    DeltaOfConcat(key, FirstSeen(key, a), Delta(key, FirstSeen(key, b), Keys(key, a)), snapshot);
    DeltaOfDelta(key, FirstSeen(key, b), Keys(key, a), snapshot);
    assert Keys(key, a) + snapshot == snapshot + Keys(key, a);
    DeltaKeys(key, FirstSeen(key, b), snapshot + Keys(key, a));
  }

  // ----- The pole of the first mention -----

  // A roster lists a key as a defendant's exactly when its first mention says "P".
  lemma PoleDecides(key: Party -> string, items: seq<Item>, i: nat)
    requires FirstMention(key, Mentions(items), i)
    ensures (exists p | p in RosterOf(key, items) :: key(p) == key(Mentions(items)[i]) && p.polo == "P")
            <==> Mentions(items)[i].polo == "P"
  {
    var ps := Mentions(items);
    RosterIsExact(key, ps);
    assert ps[i] in FirstSeen(key, ps);
    forall p | p in FirstSeen(key, ps) && key(p) == key(ps[i]) ensures p == ps[i] {
      var j: nat :| FirstMention(key, ps, j) && ps[j] == p;
      OneFirstMention(key, ps, i, j);
    }
  }

  lemma OneFirstMention(key: Party -> string, ps: seq<Party>, i: nat, j: nat)
    requires FirstMention(key, ps, i) && FirstMention(key, ps, j) && key(ps[i]) == key(ps[j])
    ensures i == j
  {
  }

  /**
   Keys ignore the case of the pole and only "P" is acted on. So over polls that go through, a party
   mentioned as a defendant is acted on exactly when the first mention of its key, in any poll, says
   "P"; when that first mention says "p", every later "P" is hidden.
   */
  lemma DefendantIsHandledIff(key: Party -> string, snapshot: set<string>, polls: seq<Poll>, i: nat)
    requires Complete(key, Fresh(snapshot), polls) && FirstMention(key, Mentions(AllItems(polls)), i)
    ensures var ps := Mentions(AllItems(polls));
            key(ps[i]) in Keys(key, Run(key, Fresh(snapshot), polls).handled)
            <==> key(ps[i]) !in snapshot && ps[i].polo == "P"
  {
    var ps, all := Mentions(AllItems(polls)), RosterOf(key, AllItems(polls));
    var k := key(ps[i]);
    PollsAreOnePoll(key, snapshot, polls);
    PoleDecides(key, AllItems(polls), i);
    var handled := Defendants(Delta(key, all, snapshot));
    KeysHas(key, handled, k);
    RosterIsDistinct(key, ps);
    DeltaHas(key, all, snapshot);
    if k in Keys(key, handled) {
      var n :| 0 <= n < |handled| && key(handled[n]) == k;
      DefendantsHave(Delta(key, all, snapshot), handled[n]);
    } else if k !in snapshot && ps[i].polo == "P" {
      var p :| p in all && key(p) == k && p.polo == "P";
      DefendantsHave(Delta(key, all, snapshot), p);
    }
  }

  lemma {:induction false} DeltaHas(key: Party -> string, roster: seq<Party>, existing: set<string>)
    ensures forall p :: p in Delta(key, roster, existing) <==> p in roster && key(p) !in existing
  {
    if roster != [] {
      DeltaHas(key, roster[..|roster| - 1], existing);
      LastOf(roster);
    }
  }

  // A first mention with "p" takes the place of a later one with "P".
  lemma LowerCasePoleShadows(x: Party, y: Party)
    requires x.nome == y.nome && x.polo == "p" && y.polo == "P"
    ensures FirstSeen(KeyOf, [x, y]) == [x] && Defendants(FirstSeen(KeyOf, [x, y])) == []
  {
    assert NormalizePole("p") == "P" == NormalizePole("P");
    SameKeyOnce(KeyOf, x, y);
    DefendantsAppend([], x);
    assert [] + [x] == [x];
  }

  lemma SameKeyOnce(key: Party -> string, x: Party, y: Party)
    requires key(x) == key(y)
    ensures FirstSeen(key, [x, y]) == [x]
  {
    assert [x, y][..1] == [x];
    OneEntry(key, x);
    assert [x][..0] == [];
    assert Keys(key, [x]) == {key(x)};
  }
}
