/**
 From a case's movement history to its outcome: deriveCaseState of
 backend/workers/datajud/worker.go.

 Every movement carries a timestamp that parses.
 */
module CaseState {
  import opened Wrappers
  import opened Text

  // `code` is the trimmed TPU code, `nome` the tribunal's own name for the movement.
  datatype Movement = Movement(time: int, code: string, nome: string)

  datatype Disposition = Conviction | Acquittal | Undeterminable

  datatype State = State(sentenced: bool, disposition: Disposition, concluded: bool)

  // ----- Reading one movement -----

  function Plain(c: char): char {
    if 'à' <= c <= 'ã' then 'a'
    else if c == 'é' || c == 'ê' then 'e'
    else if c == 'í' then 'i'
    else if 'ó' <= c <= 'õ' then 'o'
    else if c == 'ú' || c == 'ü' then 'u'
    else if c == 'ç' then 'c'
    else c
  }

  function FoldPT(s: string): string { MapChars(ToLower(s), Plain) }

  predicate IsCriminal(className: string) {
    var folded := FoldPT(className);
    Contains(folded, "penal") || Contains(folded, "criminal") || Contains(folded, "crime")
  }

  predicate Concludes(m: Movement) {
    m.code == "22" || Contains(FoldPT(m.nome), "transito em julgado") || m.code == "848"
  }

  // What a movement says about the outcome; None when it is not dispositive. The order matters.
  function Says(m: Movement): Option<Disposition> {
    var nome := FoldPT(m.nome);
    if Contains(nome, "improceden") || m.code == "220" then Some(Acquittal)
    else if Contains(nome, "absolvi") then Some(Acquittal)
    else if Contains(nome, "extincao da punibilidade") || Contains(nome, "extinta a punibilidade") || m.code == "1042" then
      Some(Undeterminable)
    else if Contains(nome, "condena") then Some(Conviction)
    else if Contains(nome, "proceden") || m.code == "219" || m.code == "221" then Some(Conviction)
    else None
  }

  predicate Sentences(m: Movement) { Says(m) == Some(Conviction) || Says(m) == Some(Acquittal) }

  // "julgo improcedente" contains "procedente": every dismissal also shows the conviction's mark,
  // and is still read as an acquittal.
  lemma DismissalIsNoConviction(m: Movement)
    requires Contains(FoldPT(m.nome), "improceden")
    ensures Contains(FoldPT(m.nome), "proceden") && Says(m) == Some(Acquittal)
  {
    assert "improceden" == "im" + "proceden";
    ContainsTail(FoldPT(m.nome), "im", "proceden");
  }

  // ----- Chronological order -----

  ghost predicate Sorted(ms: seq<Movement>) {
    forall i, j | 0 <= i < j < |ms| :: ms[i].time <= ms[j].time
  }

  function At(ms: seq<Movement>, t: int): seq<Movement> {
    if ms == [] then [] else (if ms[0].time == t then [ms[0]] else []) + At(ms[1..], t)
  }

  // sort.SliceStable by timestamp: ascending, and movements of one instant keep their order.
  ghost predicate StablySorted(ms: seq<Movement>, sorted: seq<Movement>) {
    Sorted(sorted) && forall t: int :: At(sorted, t) == At(ms, t)
  }

  lemma {:induction false} AtAppend(a: seq<Movement>, b: seq<Movement>, t: int)
    ensures At(a + b, t) == At(a, t) + At(b, t)
  {
    if a == [] {
      assert a + b == b;
    } else {
      AtAppend(a[1..], b, t);
      assert (a + b)[0] == a[0] && (a + b)[1..] == a[1..] + b;
      var head := if a[0].time == t then [a[0]] else [];
      assert head + (At(a[1..], t) + At(b, t)) == (head + At(a[1..], t)) + At(b, t);
    }
  }

  lemma {:induction false} AtAbsent(ms: seq<Movement>, t: int)
    requires forall i | 0 <= i < |ms| :: ms[i].time != t
    ensures At(ms, t) == []
  {
    if ms != [] { AtAbsent(ms[1..], t); }
  }

  lemma {:induction false} AtPresent(ms: seq<Movement>, t: int)
    requires At(ms, t) != []
    ensures exists i | 0 <= i < |ms| :: ms[i].time == t
  {
    if forall i | 0 <= i < |ms| :: ms[i].time != t { AtAbsent(ms, t); }
  }

  lemma HeadIsAtItsTime(ms: seq<Movement>)
    ensures ms != [] ==> At(ms, ms[0].time) != []
  {
  }

  // There is one stable sort: whatever algorithm SliceStable uses, it returns this sequence.
  lemma {:induction false} StableSortIsUnique(ms: seq<Movement>, x: seq<Movement>, y: seq<Movement>)
    requires StablySorted(ms, x) && StablySorted(ms, y)
    ensures x == y
  {
    SameInstants(x, y);
  }

  lemma {:induction false} SameInstants(x: seq<Movement>, y: seq<Movement>)
    requires Sorted(x) && Sorted(y) && forall t: int :: At(x, t) == At(y, t)
    ensures x == y
  {
    if x == [] {
      HeadIsAtItsTime(y);
    } else {
      var t := x[0].time;
      assert At(y, t) == At(x, t) != [];
      AtPresent(y, t);
      assert At(x, y[0].time) == At(y, y[0].time) != [];
      AtPresent(x, y[0].time);
      assert At(x, t)[0] == x[0] && At(y, t)[0] == y[0];
      forall u: int ensures At(x[1..], u) == At(y[1..], u) {
        assert At(x, u) == At(y, u);
        assert At(x[1..], u) == if t == u then At(x, u)[1..] else At(x, u);
        assert At(y[1..], u) == if t == u then At(y, u)[1..] else At(y, u);
      }
      SameInstants(x[1..], y[1..]);
    }
  }

  // The sorted copy, built one movement at a time.
  function Chronological(ms: seq<Movement>): seq<Movement> {
    if ms == [] then [] else Insert(Chronological(ms[..|ms| - 1]), ms[|ms| - 1])
  }

  function Insert(ms: seq<Movement>, m: Movement): seq<Movement> {
    if ms == [] || ms[|ms| - 1].time <= m.time then ms + [m]
    else Insert(ms[..|ms| - 1], m) + [ms[|ms| - 1]]
  }

  lemma {:induction false} InsertAdds(ms: seq<Movement>, m: Movement)
    ensures multiset(Insert(ms, m)) == multiset(ms) + multiset{m}
  {
    if !(ms == [] || ms[|ms| - 1].time <= m.time) {
      var init, last := ms[..|ms| - 1], ms[|ms| - 1];
      InsertAdds(init, m);
      assert ms == init + [last];
      assert multiset(Insert(ms, m)) == multiset(init) + multiset{m} + multiset{last};
    }
  }

  lemma {:induction false} InsertKeepsSorted(ms: seq<Movement>, m: Movement)
    requires Sorted(ms)
    ensures Sorted(Insert(ms, m))
    ensures |Insert(ms, m)| == |ms| + 1
    ensures forall i | 0 <= i <= |ms| :: Insert(ms, m)[i].time <= m.time || (ms != [] && Insert(ms, m)[i].time <= ms[|ms| - 1].time)
  {
    if !(ms == [] || ms[|ms| - 1].time <= m.time) {
      InsertKeepsSorted(ms[..|ms| - 1], m);
    }
  }

  lemma {:induction false} InsertIsStable(ms: seq<Movement>, m: Movement, t: int)
    requires Sorted(ms)
    ensures At(Insert(ms, m), t) == At(ms + [m], t)
  {
    if !(ms == [] || ms[|ms| - 1].time <= m.time) {
      var init, last := ms[..|ms| - 1], ms[|ms| - 1];
      InsertIsStable(init, m, t);
      assert ms == init + [last];
      AtAppend(Insert(init, m), [last], t);
      AtAppend(init, [m], t);
      AtAppend(init, [last], t);
      AtAppend(ms, [m], t);
    }
  }

  lemma {:induction false} ChronologicalIsTheStableSort(ms: seq<Movement>)
    ensures StablySorted(ms, Chronological(ms)) && multiset(Chronological(ms)) == multiset(ms)
  {
    if ms != [] {
      var init, last := ms[..|ms| - 1], ms[|ms| - 1];
      ChronologicalIsTheStableSort(init);
      InsertKeepsSorted(Chronological(init), last);
      InsertAdds(Chronological(init), last);
      assert ms == init + [last];
      forall t: int ensures At(Chronological(ms), t) == At(ms, t) { StillStable(init, Chronological(init), last, t); }
    }
  }

  lemma StillStable(ms: seq<Movement>, sorted: seq<Movement>, m: Movement, t: int)
    requires StablySorted(ms, sorted)
    ensures At(Insert(sorted, m), t) == At(ms + [m], t)
  {
    InsertIsStable(sorted, m, t);
    AtAppend(sorted, [m], t);
    AtAppend(ms, [m], t);
    assert At(sorted, t) == At(ms, t);
  }

  // ----- The derivation -----

  // The last movement of a history that says anything about the outcome.
  function LastWord(ms: seq<Movement>): Option<Movement> {
    if ms == [] then None
    else if Says(ms[|ms| - 1]).Some? then Some(ms[|ms| - 1])
    else LastWord(ms[..|ms| - 1])
  }

  function Verdict(word: Option<Movement>): Disposition {
    if word.Some? && Says(word.value).Some? then Says(word.value).value else Undeterminable
  }

  predicate AnySentences(ms: seq<Movement>) { exists i | 0 <= i < |ms| :: Sentences(ms[i]) }

  predicate AnyConcludes(ms: seq<Movement>) { exists i | 0 <= i < |ms| :: Concludes(ms[i]) }

  // The outcome of a history.
  function Derived(className: string, ms: seq<Movement>): State {
    State(IsCriminal(className) && AnySentences(ms),
          if IsCriminal(className) then Verdict(LastWord(Chronological(ms))) else Undeterminable,
          AnyConcludes(ms))
  }

  lemma OneMore(ms: seq<Movement>, m: Movement)
    ensures AnySentences(ms + [m]) <==> AnySentences(ms) || Sentences(m)
    ensures AnyConcludes(ms + [m]) <==> AnyConcludes(ms) || Concludes(m)
    ensures LastWord(ms + [m]) == if Says(m).Some? then Some(m) else LastWord(ms)
  {
    var all := ms + [m];
    assert all[..|all| - 1] == ms && all[|ms|] == m;
    assert forall i | 0 <= i < |ms| :: all[i] == ms[i];
  }

  lemma SameMovements(a: seq<Movement>, b: seq<Movement>)
    requires multiset(a) == multiset(b)
    ensures AnySentences(a) == AnySentences(b) && AnyConcludes(a) == AnyConcludes(b)
  {
    assert forall m :: m in a <==> m in multiset(a);
    assert forall m :: m in b <==> m in multiset(b);
    assert forall i | 0 <= i < |a| :: a[i] in b;
    assert forall i | 0 <= i < |b| :: b[i] in a;
  }

  method DeriveCaseState(className: string, ms: seq<Movement>) returns (st: State)
    ensures st == Derived(className, ms)
  {
    st := State(false, Undeterminable, false);
    var criminal := IsCriminal(className);
    var ordered := Chronological(ms);
    for i := 0 to |ordered|
      invariant st.sentenced <==> criminal && AnySentences(ordered[..i])
      invariant st.disposition == if criminal then Verdict(LastWord(ordered[..i])) else Undeterminable
      invariant st.concluded <==> AnyConcludes(ordered[..i])
    {
      var m := ordered[i];
      OneMore(ordered[..i], m);
      assert ordered[..i + 1] == ordered[..i] + [m];
      if Concludes(m) {
        st := st.(concluded := true);
      }
      if !criminal {
        continue;
      }
      match Says(m)
      case Some(Undeterminable) =>
        st := st.(disposition := Undeterminable);
      case Some(d) =>
        st := st.(disposition := d, sentenced := true);
      case None =>
    }
    ChronologicalIsTheStableSort(ms);
    SameMovements(ms, ordered);
    assert ordered[..|ordered|] == ordered;
  }

  // ----- The last word, without sorting -----

  // movs[i] is the dispositive movement with the latest timestamp, the later listed of equals.
  ghost predicate Latest(ms: seq<Movement>, i: nat) {
    && i < |ms| && Says(ms[i]).Some?
    && forall j | 0 <= j < |ms| && Says(ms[j]).Some? :: ms[j].time < ms[i].time || (ms[j].time == ms[i].time && j <= i)
  }

  // One more movement replaces the last word when it says something and is not older.
  function Heard(word: Option<Movement>, m: Movement): Option<Movement> {
    if Says(m).None? || (word.Some? && word.value.time > m.time) then word else Some(m)
  }

  lemma {:induction false} LastWordInserted(ms: seq<Movement>, m: Movement)
    requires Sorted(ms)
    ensures LastWord(Insert(ms, m)) == Heard(LastWord(ms), m)
  {
    if ms == [] || ms[|ms| - 1].time <= m.time {
      OneMore(ms, m);
      LastWordIsThere(ms);
    } else {
      var init, last := ms[..|ms| - 1], ms[|ms| - 1];
      LastWordInserted(init, m);
      OneMore(Insert(init, m), last);
    }
  }

  lemma {:induction false} LastWordIsThere(ms: seq<Movement>)
    ensures LastWord(ms).Some? ==> LastWord(ms).value in ms
  {
    if ms != [] { LastWordIsThere(ms[..|ms| - 1]); }
  }

  // Reading the movements in the order they are listed.
  function LastHeard(ms: seq<Movement>): Option<nat> {
    if ms == [] then None
    else
      var word, m := LastHeard(ms[..|ms| - 1]), ms[|ms| - 1];
      if Says(m).None? || (word.Some? && word.value < |ms| && ms[word.value].time > m.time) then word else Some(|ms| - 1)
  }

  lemma {:induction false} LastHeardIsLatest(ms: seq<Movement>)
    ensures LastHeard(ms).Some? ==> Latest(ms, LastHeard(ms).value)
    ensures LastHeard(ms).None? ==> forall j | 0 <= j < |ms| :: Says(ms[j]).None?
  {
    if ms != [] {
      LastHeardIsLatest(ms[..|ms| - 1]);
      assert forall j | 0 <= j < |ms| - 1 :: ms[..|ms| - 1][j] == ms[j];
    }
  }

  lemma {:induction false} LastHeardIsLastWord(ms: seq<Movement>)
    ensures LastHeard(ms).Some? ==> LastHeard(ms).value < |ms|
    ensures LastWord(Chronological(ms)) == if LastHeard(ms).None? then None else Some(ms[LastHeard(ms).value])
  {
    if ms != [] {
      var init, m := ms[..|ms| - 1], ms[|ms| - 1];
      LastHeardIsLastWord(init);
      ChronologicalIsTheStableSort(init);
      LastWordInserted(Chronological(init), m);
    }
  }

  // The disposition of a criminal case is what its latest dispositive movement says, in whatever
  // order the tribunal lists them; it is undeterminable when no movement is dispositive.
  lemma LatestWordWins(className: string, ms: seq<Movement>)
    requires IsCriminal(className)
    ensures (forall j | 0 <= j < |ms| :: Says(ms[j]).None?) ==> Derived(className, ms).disposition == Undeterminable
    ensures forall i: nat | Latest(ms, i) :: Says(ms[i]) == Some(Derived(className, ms).disposition)
    ensures (exists j | 0 <= j < |ms| :: Says(ms[j]).Some?) ==> exists i: nat :: Latest(ms, i)
  {
    LastHeardIsLatest(ms);
    LastHeardIsLastWord(ms);
    forall i: nat | Latest(ms, i) ensures Says(ms[i]) == Some(Derived(className, ms).disposition) { LatestIsHeard(ms, i); }
  }

  lemma LatestIsHeard(ms: seq<Movement>, i: nat)
    requires Latest(ms, i)
    ensures LastHeard(ms) == Some(i)
  {
    LastHeardIsLatest(ms);
  }

  ghost predicate DistinctTimes(ms: seq<Movement>) {
    forall i, j | 0 <= i < j < |ms| :: ms[i].time != ms[j].time
  }

  // With distinct timestamps the derivation does not see the order in which movements arrive.
  lemma OrderOfArrivalIsIrrelevant(className: string, a: seq<Movement>, b: seq<Movement>)
    requires multiset(a) == multiset(b) && DistinctTimes(a) && DistinctTimes(b)
    ensures Derived(className, a) == Derived(className, b)
    ensures Chronological(a) == Chronological(b)
  {
    SameMovements(a, b);
    ChronologicalIsTheStableSort(a);
    ChronologicalIsTheStableSort(b);
    StrictOrderIsUnique(Chronological(a), Chronological(b), a, b);
  }

  lemma {:induction false} AtDistinct(ms: seq<Movement>, i: nat)
    requires DistinctTimes(ms) && i < |ms|
    ensures At(ms, ms[i].time) == [ms[i]]
  {
    if i > 0 {
      AtDistinct(ms[1..], i - 1);
    } else {
      AtAbsent(ms[1..], ms[0].time);
    }
  }

  // Permutations with distinct timestamps agree on every instant.
  lemma SameAtEveryInstant(a: seq<Movement>, b: seq<Movement>, t: int)
    requires multiset(a) == multiset(b) && DistinctTimes(a) && DistinctTimes(b)
    ensures At(a, t) == At(b, t)
  {
    assert forall i | 0 <= i < |a| :: a[i] in multiset(b);
    assert forall i | 0 <= i < |b| :: b[i] in multiset(a);
    if i :| 0 <= i < |a| && a[i].time == t {
      var j :| 0 <= j < |b| && b[j] == a[i];
      AtDistinct(a, i);
      AtDistinct(b, j);
    } else {
      assert forall j | 0 <= j < |b| :: b[j] in a;
      AtAbsent(a, t);
      AtAbsent(b, t);
    }
  }

  lemma StrictOrderIsUnique(x: seq<Movement>, y: seq<Movement>, a: seq<Movement>, b: seq<Movement>)
    requires StablySorted(a, x) && StablySorted(b, y)
    requires multiset(a) == multiset(b) && DistinctTimes(a) && DistinctTimes(b)
    ensures x == y
  {
    forall t: int ensures At(x, t) == At(y, t) {
      SameAtEveryInstant(a, b, t);
      assert At(x, t) == At(a, t) && At(y, t) == At(b, t);
    }
    SameInstants(x, y);
  }

  // ----- What the marks decide -----

  predicate Shows(m: Movement, mark: string) { Contains(FoldPT(m.nome), mark) }

  // A dismissal or an absolvição.
  predicate Acquits(m: Movement) { Shows(m, "improceden") || m.code == "220" || Shows(m, "absolvi") }

  predicate Extinguishes(m: Movement) {
    Shows(m, "extincao da punibilidade") || Shows(m, "extinta a punibilidade") || m.code == "1042"
  }

  predicate Convicts(m: Movement) { Shows(m, "condena") || Shows(m, "proceden") || m.code in {"219", "221"} }

  predicate Marked(m: Movement) { Acquits(m) || Extinguishes(m) || Convicts(m) }

  // The marked movement with the latest timestamp, the later listed of equals.
  ghost predicate LastMarked(ms: seq<Movement>, i: nat) {
    && i < |ms| && Marked(ms[i])
    && forall j | 0 <= j < |ms| && Marked(ms[j]) :: ms[j].time < ms[i].time || (ms[j].time == ms[i].time && j <= i)
  }

  lemma MarksSay(m: Movement)
    ensures Acquits(m) ==> Says(m) == Some(Acquittal)
    ensures !Acquits(m) && Extinguishes(m) ==> Says(m) == Some(Undeterminable)
    ensures !Acquits(m) && !Extinguishes(m) && Convicts(m) ==> Says(m) == Some(Conviction)
    ensures !Marked(m) ==> Says(m).None?
  {
  }

  /**
   The outcome, read off the marks, in whatever order the movements are listed. In a criminal case the
   last marked movement decides: a dismissal or absolvição acquits whatever else it shows, an extinction
   leaves the outcome open, anything else convicts; and the case is sentenced when some movement acquits
   or convicts. No other case has an outcome. Any case is concluded by its Baixa or its trânsito em julgado.
   */
  lemma MarksDecide(className: string, ms: seq<Movement>)
    ensures var st, fold := Derived(className, ms), FoldPT(className);
      && (if Contains(fold, "penal") || Contains(fold, "criminal") || Contains(fold, "crime") then
            && (forall i: nat | LastMarked(ms, i) ::
                  st.disposition == if Acquits(ms[i]) then Acquittal else if Extinguishes(ms[i]) then Undeterminable else Conviction)
            && ((forall i | 0 <= i < |ms| :: !Marked(ms[i])) ==> st.disposition == Undeterminable)
            && (st.sentenced <==> exists i | 0 <= i < |ms| :: Acquits(ms[i]) || (Convicts(ms[i]) && !Extinguishes(ms[i])))
          else st.disposition == Undeterminable && !st.sentenced)
      && (st.concluded <==> exists i | 0 <= i < |ms| :: ms[i].code in {"22", "848"} || Shows(ms[i], "transito em julgado"))
  {
    forall m: Movement ensures Says(m).Some? <==> Marked(m) { MarksSay(m); }
    forall m: Movement ensures Sentences(m) <==> Acquits(m) || (Convicts(m) && !Extinguishes(m)) { MarksSay(m); }
    if IsCriminal(className) {
      LatestWordWins(className, ms);
      forall i: nat | LastMarked(ms, i)
        ensures Derived(className, ms).disposition ==
                if Acquits(ms[i]) then Acquittal else if Extinguishes(ms[i]) then Undeterminable else Conviction
      {
        MarksSay(ms[i]);
        assert Latest(ms, i);
      }
    }
  }

  // A movement that carries no mark changes nothing, wherever it is listed.
  lemma UnmarkedChangesNothing(className: string, before: seq<Movement>, m: Movement, after: seq<Movement>)
    requires !Marked(m) && m.code !in {"22", "848"} && !Shows(m, "transito em julgado")
    ensures Derived(className, before + [m] + after) == Derived(className, before + after)
  {
    MarksSay(m);
    OneLess(before, m, after);
    WordWithout(before, m, after);
  }

  lemma OneLess(before: seq<Movement>, m: Movement, after: seq<Movement>)
    requires !Sentences(m) && !Concludes(m)
    ensures AnySentences(before + [m] + after) == AnySentences(before + after)
    ensures AnyConcludes(before + [m] + after) == AnyConcludes(before + after)
  {
    var a, b := before + [m] + after, before + after;
    forall x | x != m ensures x in a <==> x in b { }
    assert AnySentences(a) <==> exists x | x in a :: Sentences(x);
    assert AnySentences(b) <==> exists x | x in b :: Sentences(x);
    assert AnyConcludes(a) <==> exists x | x in a :: Concludes(x);
    assert AnyConcludes(b) <==> exists x | x in b :: Concludes(x);
  }

  lemma ChronologicalOneMore(ms: seq<Movement>, m: Movement)
    ensures Chronological(ms + [m]) == Insert(Chronological(ms), m)
  {
    assert (ms + [m])[..|ms|] == ms;
  }

  lemma SameWordStep(x: seq<Movement>, y: seq<Movement>, m: Movement)
    requires Sorted(x) && Sorted(y) && LastWord(x) == LastWord(y)
    ensures LastWord(Insert(x, m)) == LastWord(Insert(y, m))
  {
    LastWordInserted(x, m);
    LastWordInserted(y, m);
  }

  lemma WordOneMore(a: seq<Movement>, b: seq<Movement>, m: Movement)
    requires LastWord(Chronological(a)) == LastWord(Chronological(b))
    ensures LastWord(Chronological(a + [m])) == LastWord(Chronological(b + [m]))
  {
    ChronologicalOneMore(a, m);
    ChronologicalOneMore(b, m);
    ChronologicalIsTheStableSort(a);
    ChronologicalIsTheStableSort(b);
    SameWordStep(Chronological(a), Chronological(b), m);
  }

  lemma SilentAtTheEnd(ms: seq<Movement>, m: Movement)
    requires Says(m).None?
    ensures LastWord(Chronological(ms + [m])) == LastWord(Chronological(ms))
  {
    ChronologicalOneMore(ms, m);
    ChronologicalIsTheStableSort(ms);
    LastWordInserted(Chronological(ms), m);
  }

  lemma {:induction false} WordWithout(before: seq<Movement>, m: Movement, after: seq<Movement>)
    requires Says(m).None?
    ensures LastWord(Chronological(before + [m] + after)) == LastWord(Chronological(before + after))
  {
    if after == [] {
      assert before + [m] + after == before + [m] && before + after == before;
      SilentAtTheEnd(before, m);
    } else {
      var init, last := after[..|after| - 1], after[|after| - 1];
      assert before + [m] + after == before + [m] + init + [last] && before + after == before + init + [last];
      WordWithout(before, m, init);
      WordOneMore(before + [m] + init, before + init, last);
    }
  }

  // ----- Accents and witnesses -----

  // Letter by letter: the accents of the movement names, in both cases, and ASCII case; nothing else of
  // ASCII changes.
  lemma FoldPTFolds(c: char)
    ensures c in {'á', 'â', 'ã', 'à', 'Á', 'Â', 'Ã', 'À'} ==> FoldPT([c]) == ['a']
    ensures c in {'é', 'ê', 'É', 'Ê'} ==> FoldPT([c]) == ['e']
    ensures c in {'í', 'Í'} ==> FoldPT([c]) == ['i']
    ensures c in {'ó', 'ô', 'õ', 'Ó', 'Ô', 'Õ'} ==> FoldPT([c]) == ['o']
    ensures c in {'ú', 'ü', 'Ú', 'Ü'} ==> FoldPT([c]) == ['u']
    ensures c in {'ç', 'Ç'} ==> FoldPT([c]) == ['c']
    ensures c < '\U{0080}' ==> FoldPT([c]) == if 'A' <= c <= 'Z' then [(c as int + 32) as char] else [c]
  {
    FoldsTo([c], [Plain(LowerChar(c))]);
  }

  lemma FoldPTJoins(a: string, b: string)
    ensures FoldPT(a + b) == FoldPT(a) + FoldPT(b)
  {
    FoldsTo(a + b, FoldPT(a) + FoldPT(b));
  }

  lemma FoldsTo(s: string, r: string)
    requires |s| == |r| && forall i | 0 <= i < |s| :: Plain(LowerChar(s[i])) == r[i]
    ensures FoldPT(s) == r
  {
  }

  lemma LacksLetter(s: string, mark: string, k: nat)
    requires k < |mark| && mark[k] !in s
    ensures !Contains(s, mark)
  {
    forall i | 0 <= i <= |s| ensures !OccursAt(s, mark, i) {
      if i + |mark| <= |s| { assert s[i..i + |mark|][k] == s[i + k]; }
    }
  }

  lemma ShowsAt(s: string, mark: string, i: nat)
    requires i + |mark| <= |s| && s[i..i + |mark|] == mark
    ensures Contains(s, mark)
  {
    assert OccursAt(s, mark, i);
  }

  // "Condenação" in a criminal action, a class and a movement with capitals and accents.
  lemma CondenacaoConvicts(className: string, nome: string, t: int)
    requires className == "Ação Penal" && nome == "Condenação"
    ensures Derived(className, [Movement(t, "", nome)]) == State(true, Conviction, false)
  {
    var fold := "condenacao";
    PenalAction(className);
    assert nome[0] == 'C' && nome[7] == 'ç' && nome[8] == 'ã';
    FoldsTo(nome, fold);
    ShowsAt(fold, "condena", 0);
    OnlyCondena(nome, fold);
    OneMovement(className, Movement(t, "", nome));
  }

  lemma OnlyCondena(nome: string, fold: string)
    requires fold == "condenacao" && FoldPT(nome) == fold
    ensures var m := Movement(0, "", nome); !Acquits(m) && !Extinguishes(m) && !Shows(m, "transito em julgado")
  {
    assert 'm' !in fold && 'b' !in fold && 'x' !in fold && 't' !in fold;
    LacksLetter(fold, "improceden", 1);
    LacksLetter(fold, "absolvi", 1);
    NotExtinct(fold);
  }

  lemma NotExtinct(fold: string)
    requires 'x' !in fold && 't' !in fold
    ensures !Contains(fold, "extincao da punibilidade") && !Contains(fold, "extinta a punibilidade")
    ensures !Contains(fold, "transito em julgado")
  {
    LacksLetter(fold, "extincao da punibilidade", 1);
    LacksLetter(fold, "extinta a punibilidade", 1);
    LacksLetter(fold, "transito em julgado", 0);
  }

  lemma PenalAction(className: string)
    requires className == "Ação Penal"
    ensures Contains(FoldPT(className), "penal")
  {
    FoldsTo(className, "acao penal");
    ShowsAt("acao penal", "penal", 5);
  }

  // "IMPROCEDÊNCIA" acquits, although it shows the mark of a conviction.
  lemma ImprocedenciaAcquits(className: string, nome: string, t: int)
    requires className == "Ação Penal" && nome == "IMPROCEDÊNCIA"
    ensures Derived(className, [Movement(t, "", nome)]) == State(true, Acquittal, false)
  {
    var fold := "improcedencia";
    PenalAction(className);
    FoldsTo(nome, fold);
    OnlyImproceden(fold);
    OneMovement(className, Movement(t, "", nome));
  }

  lemma OnlyImproceden(fold: string)
    requires fold == "improcedencia"
    ensures Contains(fold, "improceden") && !Contains(fold, "transito em julgado")
  {
    ShowsAt(fold, "improceden", 0);
    assert 't' !in fold;
    LacksLetter(fold, "transito em julgado", 0);
  }

  // "Trânsito em Julgado" concludes a civil case and leaves it without an outcome.
  lemma TransitoConcludes(className: string, nome: string, t: int)
    requires className == "Apelação Cível" && nome == "Trânsito em Julgado"
    ensures Derived(className, [Movement(t, "", nome)]) == State(false, Undeterminable, true)
  {
    CivilAppeal(className);
    FoldsTo(nome, "transito em julgado");
    ShowsAt("transito em julgado", "transito em julgado", 0);
    OneMovement(className, Movement(t, "", nome));
  }

  lemma CivilAppeal(className: string)
    requires className == "Apelação Cível"
    ensures var fold := FoldPT(className); !Contains(fold, "penal") && !Contains(fold, "criminal") && !Contains(fold, "crime")
  {
    var fold := "apelacao civel";
    FoldsTo(className, fold);
    assert 'n' !in fold && 'r' !in fold;
    LacksLetter(fold, "penal", 2);
    LacksLetter(fold, "criminal", 1);
    LacksLetter(fold, "crime", 1);
  }

  lemma OneMovement(className: string, m: Movement)
    ensures var st, fold := Derived(className, [m]), FoldPT(className);
      && (if Contains(fold, "penal") || Contains(fold, "criminal") || Contains(fold, "crime") then
            && st.disposition == (if Acquits(m) then Acquittal else if Extinguishes(m) || !Convicts(m) then Undeterminable else Conviction)
            && (st.sentenced <==> Acquits(m) || (Convicts(m) && !Extinguishes(m)))
          else st.disposition == Undeterminable && !st.sentenced)
      && (st.concluded <==> m.code in {"22", "848"} || Shows(m, "transito em julgado"))
  {
    MarksDecide(className, [m]);
    assert [m][0] == m;
    assert Marked(m) ==> LastMarked([m], 0);
  }
}
