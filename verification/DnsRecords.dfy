/** The CNAME chase over one DNS response: the loops of the code against a recursive definition that
    follows the chain of aliases, and that definition against chains stated outright. */
module DnsRecords {
  import opened Common
  import opened DnsNames

  const RESULT_LIMIT: nat := 4096
  const BYTE_LIMIT: nat := 1024 * 1024

  type Text = seq<Byte>

  /** The data of an answer record; `None` stands for a field the library could not deliver. */
  datatype Data =
    | Cname(target: Option<Name>)
    | Address4(text: Option<Text>)
    | Address6(text: Option<Text>)
    | Pointer(text: Option<Text>)
    | OtherType

  datatype Record = Record(inClass: bool, name: Option<Name>, data: Data)

  datatype Code = EBADRESP | ENODATA | ENOMEM

  /** Whether the request asked for records of this type. */
  predicate Wanted(kind: int, data: Data) {
    || (kind == 4 && data.Address4?)
    || (kind == 6 && data.Address6?)
    || (kind == -1 && data.Pointer?)
  }

  predicate Owned(r: Record, owner: Name) {
    r.inClass && r.name.Some? && Canon(r.name.value) == owner
  }

  function TextBytes(texts: seq<Text>): nat {
    if texts == [] then 0 else TextBytes(texts[..|texts| - 1]) + |texts[|texts| - 1]| + 1
  }

  // ---------- one name of the chain ----------

  /** What is known of a name after some of the records: its alias (canonical) and its answers. */
  datatype Level = Level(alias: Option<Name>, texts: seq<Text>) | Broken(code: Code)

  function Consider(level: Level, r: Record, kind: int, owner: Name): Level {
    if level.Broken? || !Owned(r, owner) then level
    else if r.data.Cname? then
      if r.data.target.None? then Broken(EBADRESP)
      else if level.alias.Some? && level.alias.value != Canon(r.data.target.value) then Broken(EBADRESP)
      else level.(alias := Some(Canon(r.data.target.value)))
    else if !Wanted(kind, r.data) then level
    else if r.data.text.None? then Broken(EBADRESP)
    else if |level.texts| >= RESULT_LIMIT || |r.data.text.value| + 1 > BYTE_LIMIT - TextBytes(level.texts) then
      Broken(ENOMEM)
    else level.(texts := level.texts + [r.data.text.value])
  }

  function Scan(records: seq<Record>, kind: int, owner: Name, n: nat): Level
    requires n <= |records|
  {
    if n == 0 then Level(None, [])
    else Consider(Scan(records, kind, owner, n - 1), records[n - 1], kind, owner)
  }

  function LevelOf(records: seq<Record>, kind: int, owner: Name): Level {
    Scan(records, kind, owner, |records|)
  }

  /** The texts of the wanted records of a name, in the order of the answer. */
  function Answers(records: seq<Record>, kind: int, owner: Name): seq<Option<Text>> {
    if records == [] then []
    else
      var last := records[|records| - 1];
      Answers(records[..|records| - 1], kind, owner) +
      if Owned(last, owner) && Wanted(kind, last.data) then [last.data.text] else []
  }

  // ---------- the chain, recursively ----------

  datatype Outcome = Found(texts: seq<Text>) | Fails(code: Code)

  function Owners(records: seq<Record>): set<Name> {
    set r | r in records && r.name.Some? :: Canon(r.name.value)
  }

  lemma {:induction false} AliasHasOwner(records: seq<Record>, kind: int, owner: Name, n: nat)
    requires n <= |records|
    requires var level := Scan(records, kind, owner, n); level.Level? && level.alias.Some?
    ensures owner in Owners(records)
  {
    var r := records[n - 1];
    if Owned(r, owner) && r.data.Cname? {
      assert r in records;
    } else {
      AliasHasOwner(records, kind, owner, n - 1);
    }
  }

  /** Follow the aliases from `owner`; no fuel is needed, because only names that own a record have
      an alias and none is visited twice. */
  function Resolve(records: seq<Record>, kind: int, owner: Name, seen: set<Name>): Outcome
    decreases Owners(records) - seen
  {
    if owner in seen then Fails(EBADRESP)
    else
      match LevelOf(records, kind, owner)
      case Broken(code) => Fails(code)
      case Level(alias, texts) =>
        if texts != [] then Found(texts)
        else if alias.None? then Fails(ENODATA)
        else
          AliasHasOwner(records, kind, owner, |records|);
          Resolve(records, kind, alias.value, seen + {owner})
  }

  /** There are no more owners than records: the pigeonholes. */
  lemma {:induction false} OwnersAreFew(records: seq<Record>)
    ensures |Owners(records)| <= |records|
  {
    if records != [] {
      var last := records[|records| - 1];
      var init := records[..|records| - 1];
      OwnersAreFew(init);
      assert records == init + [last];
      if last.name.Some? {
        assert Owners(records) == Owners(init) + {Canon(last.name.value)};
      } else {
        assert Owners(records) == Owners(init);
      }
    }
  }

  lemma SubsetSize<T>(a: set<T>, b: set<T>)
    requires a <= b
    ensures |a| <= |b|
  {
    assert b == a + (b - a);
  }

  lemma Pigeonhole(records: seq<Record>, seen: set<Name>)
    requires seen <= Owners(records)
    ensures |seen| <= |records|
  {
    OwnersAreFew(records);
    SubsetSize(seen, Owners(records));
  }

  // ---------- the chain, declaratively ----------

  /** A chain of distinct names, each but the last an alias of the next without answers of its own. */
  ghost predicate IsChain(records: seq<Record>, kind: int, chain: seq<Name>) {
    && chain != []
    && (forall i, j :: 0 <= i < j < |chain| ==> chain[i] != chain[j])
    && (forall i :: 0 <= i < |chain| - 1 ==> LevelOf(records, kind, chain[i]) == Level(Some(chain[i + 1]), []))
  }

  ghost predicate Answering(records: seq<Record>, kind: int, name: Name, texts: seq<Text>) {
    var level := LevelOf(records, kind, name);
    level.Level? && level.texts == texts && texts != []
  }

  /** What the last name of a chain means for the chase: texts, neither texts nor alias, too many texts, or
      a broken name or an alias that has been met before. */
  ghost predicate Ends(records: seq<Record>, kind: int, chain: seq<Name>, seen: set<Name>, outcome: Outcome)
    requires chain != []
  {
    var level := LevelOf(records, kind, chain[|chain| - 1]);
    match outcome
    case Found(texts) => level.Level? && level.texts == texts != []
    case Fails(ENODATA) => level == Level(None, [])
    case Fails(ENOMEM) => level == Broken(ENOMEM)
    case Fails(EBADRESP) =>
      || level == Broken(EBADRESP)
      || (level.Level? && level.texts == [] && level.alias.Some?
          && (level.alias.value in seen || level.alias.value in chain))
  }

  lemma {:induction false} ChainDecides(
    records: seq<Record>, kind: int, chain: seq<Name>, seen: set<Name>, outcome: Outcome)
    requires IsChain(records, kind, chain) && Ends(records, kind, chain, seen, outcome)
    requires forall i :: 0 <= i < |chain| ==> chain[i] !in seen
    ensures Resolve(records, kind, chain[0], seen) == outcome
    decreases |chain|
  {
    if |chain| > 1 {
      var rest := chain[1..];
      assert forall i :: 0 <= i < |rest| ==> rest[i] == chain[i + 1];
      assert LevelOf(records, kind, chain[0]) == Level(Some(chain[0 + 1]), []);
      assert chain == [chain[0]] + rest;
      ChainDecides(records, kind, rest, seen + {chain[0]}, outcome);
    }
  }

  lemma {:induction false} ScanBreaksWith(records: seq<Record>, kind: int, owner: Name, n: nat)
    requires n <= |records| && Scan(records, kind, owner, n).Broken?
    ensures Scan(records, kind, owner, n).code in {EBADRESP, ENOMEM}
  {
    if Scan(records, kind, owner, n - 1).Broken? {
      ScanBreaksWith(records, kind, owner, n - 1);
    }
  }

  lemma EndsExtended(
    records: seq<Record>, kind: int, owner: Name, rest: seq<Name>, seen: set<Name>, outcome: Outcome)
    requires rest != [] && Ends(records, kind, rest, seen + {owner}, outcome)
    ensures Ends(records, kind, [owner] + rest, seen, outcome)
  {
    assert ([owner] + rest)[|rest|] == rest[|rest| - 1];
  }

  lemma {:induction false} ResolveHasChain(records: seq<Record>, kind: int, owner: Name, seen: set<Name>)
    returns (chain: seq<Name>)
    requires owner !in seen
    ensures IsChain(records, kind, chain) && chain[0] == owner
    ensures Ends(records, kind, chain, seen, Resolve(records, kind, owner, seen))
    ensures forall i :: 0 <= i < |chain| ==> chain[i] !in seen
    decreases Owners(records) - seen
  {
    var level := LevelOf(records, kind, owner);
    chain := [owner];
    if level.Broken? {
      ScanBreaksWith(records, kind, owner, |records|);
    } else if level.texts == [] && level.alias.Some? && level.alias.value !in seen + {owner} {
      AliasHasOwner(records, kind, owner, |records|);
      var rest := ResolveHasChain(records, kind, level.alias.value, seen + {owner});
      chain := [owner] + rest;
      EndsExtended(records, kind, owner, rest, seen, Resolve(records, kind, owner, seen));
      assert forall i :: 0 <= i < |chain| - 1 ==> LevelOf(records, kind, chain[i]) == Level(Some(chain[i + 1]), []);
    } else if level.texts == [] && level.alias.Some? {
      AliasHasOwner(records, kind, owner, |records|);
      assert Resolve(records, kind, level.alias.value, seen + {owner}) == Fails(EBADRESP);
    }
  }

  /** The chase comes to an outcome exactly when a chain of distinct names leads from the queried name to one
      that means that outcome. */
  lemma ResolveIsChainEnd(records: seq<Record>, kind: int, owner: Name, outcome: Outcome)
    ensures Resolve(records, kind, owner, {}) == outcome <==>
            exists chain :: IsChain(records, kind, chain) && chain[0] == owner
                            && Ends(records, kind, chain, {}, outcome)
  {
    if Resolve(records, kind, owner, {}) == outcome {
      var chain := ResolveHasChain(records, kind, owner, {});
    }
    if chain :| IsChain(records, kind, chain) && chain[0] == owner && Ends(records, kind, chain, {}, outcome) {
      ChainDecides(records, kind, chain, {}, outcome);
    }
  }

  /** The chase succeeds with some texts exactly when a chain of distinct names leads from the
      queried name to one whose answers they are. */
  lemma ResolveIsChainReachability(records: seq<Record>, kind: int, owner: Name, texts: seq<Text>)
    ensures Resolve(records, kind, owner, {}) == Found(texts) <==>
            exists chain :: IsChain(records, kind, chain) && chain[0] == owner
                            && Answering(records, kind, chain[|chain| - 1], texts)
  {
    ResolveIsChainEnd(records, kind, owner, Found(texts));
    if chain :| IsChain(records, kind, chain) && chain[0] == owner
                && Answering(records, kind, chain[|chain| - 1], texts) {
      assert Ends(records, kind, chain, {}, Found(texts));
    }
    if chain :| IsChain(records, kind, chain) && chain[0] == owner
                && Ends(records, kind, chain, {}, Found(texts)) {
      assert Answering(records, kind, chain[|chain| - 1], texts);
    }
  }

  function Present(texts: seq<Text>): seq<Option<Text>> {
    seq(|texts|, i requires 0 <= i < |texts| => Some(texts[i]))
  }

  /** The answers of a name are exactly its wanted records, in answer order. */
  lemma {:induction false} LevelTextsAreAnswers(records: seq<Record>, kind: int, owner: Name, n: nat)
    requires n <= |records| && Scan(records, kind, owner, n).Level?
    ensures Answers(records[..n], kind, owner) == Present(Scan(records, kind, owner, n).texts)
  {
    if n > 0 {
      var before := Scan(records, kind, owner, n - 1);
      LevelTextsAreAnswers(records, kind, owner, n - 1);
      assert records[..n][..n - 1] == records[..n - 1];
      assert records[..n][n - 1] == records[n - 1];
      var r := records[n - 1];
      if Owned(r, owner) && Wanted(kind, r.data) {
        assert Present(before.texts + [r.data.text.value]) == Present(before.texts) + [r.data.text];
      }
    }
  }

  // ---------- the code ----------

  function Canons(names: seq<Name>): set<Name> {
    set n | n in names :: Canon(n)
  }

  lemma CanonsAppend(names: seq<Name>, name: Name)
    ensures Canons(names + [name]) == Canons(names) + {Canon(name)}
  {
    assert name in names + [name];
    forall n | n in names
      ensures Canon(n) in Canons(names + [name])
    {
      assert n in names + [name];
    }
  }

  lemma {:induction false} FoundIsNotEmpty(records: seq<Record>, kind: int, owner: Name, seen: set<Name>)
    requires Resolve(records, kind, owner, seen).Found?
    ensures Resolve(records, kind, owner, seen).texts != []
  {
    if owner !in seen {
      var chain := ResolveHasChain(records, kind, owner, seen);
    }
  }

  lemma {:induction false} BrokenStays(records: seq<Record>, kind: int, owner: Name, n: nat)
    requires n <= |records| && Scan(records, kind, owner, n).Broken?
    ensures LevelOf(records, kind, owner) == Scan(records, kind, owner, n)
    decreases |records| - n
  {
    if n < |records| {
      assert Scan(records, kind, owner, n + 1) == Scan(records, kind, owner, n);
      BrokenStays(records, kind, owner, n + 1);
    }
  }

  // ---------- one name, declaratively ----------

  predicate OwnedAlias(r: Record, owner: Name) {
    Owned(r, owner) && r.data.Cname?
  }

  predicate OwnedAnswer(r: Record, kind: int, owner: Name) {
    Owned(r, owner) && !r.data.Cname? && Wanted(kind, r.data)
  }

  /** The texts among the first `n` records that answer the query. */
  function TextsOf(records: seq<Record>, kind: int, owner: Name, n: nat): seq<Text>
    requires n <= |records|
  {
    if n == 0 then []
    else
      var r := records[n - 1];
      TextsOf(records, kind, owner, n - 1) +
      if OwnedAnswer(r, kind, owner) && r.data.text.Some? then [r.data.text.value] else []
  }

  /** Two aliases of the name lead to different names. */
  predicate Conflict(records: seq<Record>, owner: Name, j: nat, i: nat)
    requires j < i < |records|
  {
    && OwnedAlias(records[j], owner) && OwnedAlias(records[i], owner)
    && records[j].data.target.Some? && records[i].data.target.Some?
    && Canon(records[j].data.target.value) != Canon(records[i].data.target.value)
  }

  /** Record `i` spoils the name: it is an alias or an answer without data, or an alias that contradicts one
      before it. */
  ghost predicate Spoils(records: seq<Record>, kind: int, owner: Name, i: nat)
    requires i < |records|
  {
    || (OwnedAlias(records[i], owner) && records[i].data.target.None?)
    || (OwnedAnswer(records[i], kind, owner) && records[i].data.text.None?)
    || exists j :: 0 <= j < i && Conflict(records, owner, j, i)
  }

  /** Record `i` is one answer too many: the 4097th, or beyond 1 MiB of text with its terminators. */
  predicate Exceeds(records: seq<Record>, kind: int, owner: Name, i: nat)
    requires i < |records|
  {
    && OwnedAnswer(records[i], kind, owner) && records[i].data.text.Some?
    && var before := TextsOf(records, kind, owner, i);
       |before| >= 4096 || TextBytes(before) + |records[i].data.text.value| + 1 > 1_048_576
  }

  ghost predicate Fine(records: seq<Record>, kind: int, owner: Name, i: nat)
    requires i < |records|
  {
    !Spoils(records, kind, owner, i) && !Exceeds(records, kind, owner, i)
  }

  ghost predicate FineUpTo(records: seq<Record>, kind: int, owner: Name, n: nat)
    requires n <= |records|
  {
    forall i :: 0 <= i < n ==> Fine(records, kind, owner, i)
  }

  /** The alias of a name, if it has one: where its records of that type lead. */
  ghost predicate AliasIs(records: seq<Record>, owner: Name, n: nat, alias: Option<Name>)
    requires n <= |records|
  {
    && (alias.None? <==> forall i :: 0 <= i < n ==> !OwnedAlias(records[i], owner))
    && (alias.Some? ==>
          forall i :: 0 <= i < n && OwnedAlias(records[i], owner) ==>
            records[i].data.target.Some? && Canon(records[i].data.target.value) == alias.value)
  }

  lemma FineAlias(records: seq<Record>, kind: int, owner: Name, n: nat)
    requires 0 < n <= |records| && Fine(records, kind, owner, n - 1) && OwnedAlias(records[n - 1], owner)
    requires var before := Scan(records, kind, owner, n - 1);
             before.Level? && AliasIs(records, owner, n - 1, before.alias)
    ensures records[n - 1].data.target.Some?
    ensures var before, alias := Scan(records, kind, owner, n - 1), Some(Canon(records[n - 1].data.target.value));
            && Scan(records, kind, owner, n) == before.(alias := alias)
            && AliasIs(records, owner, n, alias)
  {
    var before := Scan(records, kind, owner, n - 1);
    if before.alias.Some? {
      var j :| 0 <= j < n - 1 && OwnedAlias(records[j], owner);
      assert !Conflict(records, owner, j, n - 1);
    }
  }

  lemma FineAnswer(records: seq<Record>, kind: int, owner: Name, n: nat)
    requires 0 < n <= |records| && Fine(records, kind, owner, n - 1) && !OwnedAlias(records[n - 1], owner)
    requires var before := Scan(records, kind, owner, n - 1);
             before.Level? && before.texts == TextsOf(records, kind, owner, n - 1)
    ensures var before, level := Scan(records, kind, owner, n - 1), Scan(records, kind, owner, n);
            level.Level? && level.alias == before.alias && level.texts == TextsOf(records, kind, owner, n)
  {
  }

  lemma FineStep(records: seq<Record>, kind: int, owner: Name, n: nat)
    requires 0 < n <= |records| && Fine(records, kind, owner, n - 1)
    requires var before := Scan(records, kind, owner, n - 1);
             && before.Level? && before.texts == TextsOf(records, kind, owner, n - 1)
             && AliasIs(records, owner, n - 1, before.alias)
    ensures var level := Scan(records, kind, owner, n);
            && level.Level? && level.texts == TextsOf(records, kind, owner, n)
            && AliasIs(records, owner, n, level.alias)
  {
    if OwnedAlias(records[n - 1], owner) {
      FineAlias(records, kind, owner, n);
    } else {
      FineAnswer(records, kind, owner, n);
    }
  }

  /** A scan without a fault has found the texts and the alias. */
  lemma {:induction false} FineScan(records: seq<Record>, kind: int, owner: Name, n: nat)
    requires n <= |records| && FineUpTo(records, kind, owner, n)
    ensures Scan(records, kind, owner, n).Level?
    ensures Scan(records, kind, owner, n).texts == TextsOf(records, kind, owner, n)
    ensures AliasIs(records, owner, n, Scan(records, kind, owner, n).alias)
  {
    if n > 0 {
      FineScan(records, kind, owner, n - 1);
      assert Fine(records, kind, owner, n - 1);
      FineStep(records, kind, owner, n);
    }
  }

  lemma FaultStep(records: seq<Record>, kind: int, owner: Name, i: nat)
    requires i < |records| && !Fine(records, kind, owner, i)
    requires var before := Scan(records, kind, owner, i);
             && before.Level? && before.texts == TextsOf(records, kind, owner, i)
             && AliasIs(records, owner, i, before.alias)
    ensures Scan(records, kind, owner, i + 1)
            == Broken(if Spoils(records, kind, owner, i) then EBADRESP else ENOMEM)
  {
    var before, r := Scan(records, kind, owner, i), records[i];
    if j :| 0 <= j < i && Conflict(records, owner, j, i) {
      assert OwnedAlias(records[j], owner);
    }
    if OwnedAlias(r, owner) && r.data.target.Some? && before.alias.Some?
       && before.alias.value != Canon(r.data.target.value) {
      var j :| 0 <= j < i && OwnedAlias(records[j], owner);
      assert Conflict(records, owner, j, i);
    }
  }

  /** The first fault decides. */
  lemma FaultScan(records: seq<Record>, kind: int, owner: Name, i: nat)
    requires i < |records| && FineUpTo(records, kind, owner, i) && !Fine(records, kind, owner, i)
    ensures LevelOf(records, kind, owner)
            == Broken(if Spoils(records, kind, owner, i) then EBADRESP else ENOMEM)
  {
    FineScan(records, kind, owner, i);
    FaultStep(records, kind, owner, i);
    BrokenStays(records, kind, owner, i + 1);
  }

  /** The name has neither answers nor an alias. */
  ghost predicate NoData(records: seq<Record>, kind: int, name: Name) {
    && FineUpTo(records, kind, name, |records|) && TextsOf(records, kind, name, |records|) == []
    && forall i :: 0 <= i < |records| ==> !OwnedAlias(records[i], name)
  }

  /** The first fault among the name's records is of that kind. */
  ghost predicate Spoilt(records: seq<Record>, kind: int, name: Name) {
    exists i :: 0 <= i < |records| && FineUpTo(records, kind, name, i) && Spoils(records, kind, name, i)
  }

  ghost predicate Overfull(records: seq<Record>, kind: int, name: Name) {
    exists i :: 0 <= i < |records| && FineUpTo(records, kind, name, i)
                && !Spoils(records, kind, name, i) && Exceeds(records, kind, name, i)
  }

  /** The name has no answers and is an alias of the other one. */
  ghost predicate Aliased(records: seq<Record>, kind: int, name: Name, next: Name) {
    && FineUpTo(records, kind, name, |records|) && TextsOf(records, kind, name, |records|) == []
    && exists i :: 0 <= i < |records| && OwnedAlias(records[i], name)
                   && records[i].data.target.Some? && Canon(records[i].data.target.value) == next
  }

  lemma {:induction false} FirstFault(records: seq<Record>, kind: int, name: Name, n: nat) returns (i: nat)
    requires n <= |records| && !FineUpTo(records, kind, name, n)
    ensures i < n && FineUpTo(records, kind, name, i) && !Fine(records, kind, name, i)
  {
    if FineUpTo(records, kind, name, n - 1) {
      i := n - 1;
    } else {
      i := FirstFault(records, kind, name, n - 1);
    }
  }

  lemma FirstIsUnique(records: seq<Record>, kind: int, name: Name, i: nat)
    requires i < |records| && FineUpTo(records, kind, name, i) && !Fine(records, kind, name, i)
    ensures Spoilt(records, kind, name) <==> Spoils(records, kind, name, i)
    ensures Overfull(records, kind, name) <==> !Spoils(records, kind, name, i)
  {
    forall k | 0 <= k < |records| && FineUpTo(records, kind, name, k) && !Fine(records, kind, name, k)
      ensures k == i
    {
    }
  }

  /** What a level says, in terms of the records alone. */
  lemma LevelMeans(records: seq<Record>, kind: int, name: Name, next: Name)
    ensures LevelOf(records, kind, name) == Level(None, []) <==> NoData(records, kind, name)
    ensures LevelOf(records, kind, name) == Broken(EBADRESP) <==> Spoilt(records, kind, name)
    ensures LevelOf(records, kind, name) == Broken(ENOMEM) <==> Overfull(records, kind, name)
    ensures LevelOf(records, kind, name) == Level(Some(next), []) <==> Aliased(records, kind, name, next)
  {
    if FineUpTo(records, kind, name, |records|) {
      FineScan(records, kind, name, |records|);
      forall i | 0 <= i < |records|
        ensures !Spoils(records, kind, name, i) && !Exceeds(records, kind, name, i)
      {
        assert Fine(records, kind, name, i);
      }
    } else {
      var i := FirstFault(records, kind, name, |records|);
      FaultScan(records, kind, name, i);
      FirstIsUnique(records, kind, name, i);
    }
  }

  // ---------- the failures of the chase, declaratively ----------

  /** A chain of distinct names, each but the last an alias of the next without answers of its own. */
  ghost predicate Leads(records: seq<Record>, kind: int, chain: seq<Name>, owner: Name) {
    && chain != [] && chain[0] == owner
    && (forall i, j :: 0 <= i < j < |chain| ==> chain[i] != chain[j])
    && (forall i :: 0 <= i < |chain| - 1 ==> Aliased(records, kind, chain[i], chain[i + 1]))
  }

  lemma LeadsIsChain(records: seq<Record>, kind: int, chain: seq<Name>, owner: Name)
    ensures Leads(records, kind, chain, owner) <==> IsChain(records, kind, chain) && chain[0] == owner
  {
    forall i | 0 <= i < |chain| - 1
      ensures Aliased(records, kind, chain[i], chain[i + 1])
              <==> LevelOf(records, kind, chain[i]) == Level(Some(chain[i + 1]), [])
    {
      LevelMeans(records, kind, chain[i], chain[i + 1]);
    }
  }

  /** ENODATA: a chain leads to a name with neither answers nor an alias. */
  lemma NoDataExactly(records: seq<Record>, kind: int, owner: Name)
    ensures Resolve(records, kind, owner, {}) == Fails(ENODATA) <==>
            exists chain :: Leads(records, kind, chain, owner) && NoData(records, kind, chain[|chain| - 1])
  {
    ResolveIsChainEnd(records, kind, owner, Fails(ENODATA));
    forall chain: seq<Name> | chain != []
      ensures Leads(records, kind, chain, owner) <==> IsChain(records, kind, chain) && chain[0] == owner
      ensures NoData(records, kind, chain[|chain| - 1]) <==> Ends(records, kind, chain, {}, Fails(ENODATA))
    {
      LeadsIsChain(records, kind, chain, owner);
      LevelMeans(records, kind, chain[|chain| - 1], []);
    }
  }

  /** ENOMEM: a chain leads to a name with too many answers. */
  lemma NoMemoryExactly(records: seq<Record>, kind: int, owner: Name)
    ensures Resolve(records, kind, owner, {}) == Fails(ENOMEM) <==>
            exists chain :: Leads(records, kind, chain, owner) && Overfull(records, kind, chain[|chain| - 1])
  {
    ResolveIsChainEnd(records, kind, owner, Fails(ENOMEM));
    forall chain: seq<Name> | chain != []
      ensures Leads(records, kind, chain, owner) <==> IsChain(records, kind, chain) && chain[0] == owner
      ensures Overfull(records, kind, chain[|chain| - 1]) <==> Ends(records, kind, chain, {}, Fails(ENOMEM))
    {
      LeadsIsChain(records, kind, chain, owner);
      LevelMeans(records, kind, chain[|chain| - 1], []);
    }
  }

  /** The last name of the chain is an alias of a name on it. */
  ghost predicate Loops(records: seq<Record>, kind: int, chain: seq<Name>) {
    chain != [] && exists k :: 0 <= k < |chain| && Aliased(records, kind, chain[|chain| - 1], chain[k])
  }

  lemma EndsBadly(records: seq<Record>, kind: int, chain: seq<Name>)
    requires chain != []
    ensures Spoilt(records, kind, chain[|chain| - 1]) || Loops(records, kind, chain)
            <==> Ends(records, kind, chain, {}, Fails(EBADRESP))
  {
    var last := chain[|chain| - 1];
    LevelMeans(records, kind, last, []);
    forall k | 0 <= k < |chain|
      ensures Aliased(records, kind, last, chain[k]) <==> LevelOf(records, kind, last) == Level(Some(chain[k]), [])
    {
      LevelMeans(records, kind, last, chain[k]);
    }
  }

  /** EBADRESP: a chain leads back to a name on it, or to a name whose records are spoilt. */
  lemma BadResponseExactly(records: seq<Record>, kind: int, owner: Name)
    ensures Resolve(records, kind, owner, {}) == Fails(EBADRESP) <==>
            exists chain :: Leads(records, kind, chain, owner)
                            && (Spoilt(records, kind, chain[|chain| - 1]) || Loops(records, kind, chain))
  {
    ResolveIsChainEnd(records, kind, owner, Fails(EBADRESP));
    forall chain: seq<Name> | chain != []
      ensures Leads(records, kind, chain, owner) <==> IsChain(records, kind, chain) && chain[0] == owner
      ensures Spoilt(records, kind, chain[|chain| - 1]) || Loops(records, kind, chain)
              <==> Ends(records, kind, chain, {}, Fails(EBADRESP))
    {
      LeadsIsChain(records, kind, chain, owner);
      EndsBadly(records, kind, chain);
    }
  }

  class DnsRequest {
    const kind: int
    var failed: bool
    var code: Code
    var values: seq<Text>
    var capacity: nat
    var bytes: nat

    /** The allocator's answers, in order; beyond the end of the script it grants everything. */
    const grants: seq<bool>
    var asked: nat
    ghost var denied: bool

    ghost predicate Counted()
      reads this
    {
      && bytes == TextBytes(values) <= BYTE_LIMIT && |values| <= capacity && |values| <= RESULT_LIMIT
      && (denied ==> failed && code == ENOMEM && false in grants)
    }

    constructor (kind: int, grants: seq<bool>)
      ensures this.kind == kind && !failed && values == [] && Counted() && !denied && this.grants == grants
    {
      this.kind, failed, code, values, capacity, bytes := kind, false, EBADRESP, [], 0, 0;
      this.grants, asked, denied := grants, 0, false;
    }

    method Fail(code: Code)
      modifies this`failed, this`code
      ensures failed && this.code == code
    {
      failed, this.code := true, code;
    }

    /** An allocation; the request fails if it is denied. */
    method Allocate() returns (granted: bool)
      requires Counted() && !failed
      modifies this`asked, this`denied, this`failed, this`code
      ensures Counted() && denied == failed == !granted
    {
      granted := asked >= |grants| || grants[asked];
      asked, denied := asked + 1, !granted;
      if !granted { Fail(ENOMEM); }
    }

    /** Keep a result within the limits, doubling the array when it is full. */
    method Append(text: Text)
      requires Counted() && !failed
      modifies this
      ensures Counted()
      ensures old(|values| >= 4096 || bytes + |text| + 1 > 1048576) ==>
                failed && code == ENOMEM && values == old(values) && !denied
      ensures !old(|values| >= 4096 || bytes + |text| + 1 > 1048576) ==>
                failed == denied && values == if denied then old(values) else old(values) + [text]
    {
      var size := |text| + 1;
      if |values| >= RESULT_LIMIT || size > BYTE_LIMIT - bytes {
        Fail(ENOMEM);
        return;
      }
      if |values| == capacity {
        var granted := Allocate();
        if !granted { return; }
        capacity := if capacity == 0 then 8 else capacity * 2;
      }
      var granted := Allocate();
      if !granted { return; }
      assert (values + [text])[..|values|] == values;
      values := values + [text];
      bytes := bytes + size;
    }

    /** What the request shows of the level being scanned. */
    ghost predicate Shows(level: Level, alias: Option<Name>)
      reads this
    {
      match level
      case Broken(c) => failed && code == c
      case Level(a, texts) =>
        && !failed && values == texts
        && (alias.None? <==> a.None?) && (alias.Some? ==> a == Some(Canon(alias.value)))
    }

    /** One record against the current name. */
    method Examine(record: Record, name: Name, alias: Option<Name>, ghost level: Level)
      returns (next: Option<Name>)
      requires Counted() && level.Level? && Shows(level, alias)
      modifies this
      ensures Counted() && (denied || Shows(Consider(level, record, kind, Canon(name)), next))
    {
      next := alias;
      var mine := SameName(Some(name), record.name);
      if !record.inClass || !mine { return; }
      if record.data.Cname? {
        var target := record.data.target;
        var agrees := true;
        if alias.Some? { agrees := SameName(alias, target); }
        if target.None? || !agrees {
          Fail(EBADRESP);
        } else {
          next := target;
        }
      } else if Wanted(kind, record.data) {
        if record.data.text.None? {
          Fail(EBADRESP);
        } else {
          Append(record.data.text.value);
        }
      }
    }

    /** The inner loop: every record against the current name, until one fails the request. */
    method ScanName(records: seq<Record>, name: Name) returns (alias: Option<Name>)
      requires Counted() && !failed && values == []
      modifies this
      ensures Counted() && (denied || Shows(LevelOf(records, kind, Canon(name)), alias))
    {
      alias := None;
      var index := 0;
      while index < |records| && !failed
        invariant index <= |records| && Counted()
        invariant denied || Shows(Scan(records, kind, Canon(name), index), alias)
      {
        assert Scan(records, kind, Canon(name), index + 1)
            == Consider(Scan(records, kind, Canon(name), index), records[index], kind, Canon(name));
        alias := Examine(records[index], name, alias, Scan(records, kind, Canon(name), index));
        index := index + 1;
      }
      if failed && !denied { BrokenStays(records, kind, Canon(name), index); }
    }

    /** The cycle check: has this name been visited? */
    method Revisits(name: Name, visited: array<Name>, step: nat) returns (again: bool)
      requires step < visited.Length
      ensures again <==> Canon(name) in Canons(visited[..step])
    {
      again := false;
      for index := 0 to step
        invariant again <==> Canon(name) in Canons(visited[..index])
      {
        var same := SameName(Some(name), Some(visited[index]));
        CanonsAppend(visited[..index], visited[index]);
        assert visited[..index + 1] == visited[..index] + [visited[index]];
        if same { again := true; }
      }
    }

    /** What the request has to show in the end. */
    ghost predicate Settled(outcome: Outcome)
      reads this
    {
      match outcome
      case Found(texts) => !failed && values == texts
      case Fails(c) => failed && code == c
    }

    /** One step of the chase; `more` says that the chain goes on to `next`. */
    method Visit(records: seq<Record>, name: Name, visited: array<Name>, step: nat)
      returns (more: bool, next: Name)
      requires Counted() && !failed && values == [] && step < visited.Length
      modifies this, visited
      ensures Counted() && visited[..step] == old(visited[..step])
      ensures !more ==> denied || Settled(Resolve(records, kind, Canon(name), Canons(visited[..step])))
      ensures more ==>
                && !failed && values == [] && visited[step] == name
                && Canon(name) !in Canons(visited[..step]) && Canon(name) in Owners(records)
                && Resolve(records, kind, Canon(name), Canons(visited[..step]))
                   == Resolve(records, kind, Canon(next), Canons(visited[..step]) + {Canon(name)})
    {
      next := name;
      var again := Revisits(name, visited, step);
      if again {
        Fail(EBADRESP);
        return false, next;
      }
      visited[step] := name;
      var alias := ScanName(records, name);
      if failed || |values| != 0 { return false, next; }
      if alias.None? {
        Fail(ENODATA);
        return false, next;
      }
      AliasHasOwner(records, kind, Canon(name), |records|);
      return true, alias.value;
    }

    /** The loop over the names of the chain. */
    method Chase(records: seq<Record>, query: Name)
      requires Counted() && !failed && values == []
      modifies this
      ensures Counted() && (denied || Settled(Resolve(records, kind, Canon(query), {})))
    {
      var count := |records|;
      var visited := new Name[count + 1];
      var name := query;
      var more := true;
      var step := 0;
      while step <= count && more
        invariant step <= count + 1 && Counted()
        invariant more ==>
            && !failed && values == []
            && |Canons(visited[..step])| == step && Canons(visited[..step]) <= Owners(records)
            && Resolve(records, kind, Canon(query), {})
               == Resolve(records, kind, Canon(name), Canons(visited[..step]))
        invariant !more ==> denied || Settled(Resolve(records, kind, Canon(query), {}))
      {
        ghost var seen := Canons(visited[..step]);
        more, name := Visit(records, name, visited, step);
        if more {
          assert visited[..step + 1] == visited[..step] + [visited[step]];
          CanonsAppend(visited[..step], visited[step]);
        }
        step := step + 1;
      }
      if more { Pigeonhole(records, Canons(visited[..step])); }
    }

    /** The whole chase.  `stuck` is the fallback after the loop, for a request with neither a
        result nor a failure: it is never taken, because a chain that has not ended has visited
        more distinct owners than there are records. */
    method Collect(records: seq<Record>, query: Option<Name>) returns (stuck: bool)
      requires Counted() && !failed && values == []
      modifies this
      ensures Counted() && !stuck
      ensures query.None? ==> Settled(Fails(EBADRESP)) && !denied
      ensures query.Some? && |records| > 4096 ==> Settled(Fails(ENOMEM)) && !denied
      ensures query.Some? && |records| <= 4096 ==>
                Settled(if denied then Fails(ENOMEM) else Resolve(records, kind, Canon(query.value), {}))
    {
      stuck := false;
      if query.None? {
        Fail(EBADRESP);
        return;
      }
      var count := |records|;
      if count > RESULT_LIMIT {
        Fail(ENOMEM);
        return;
      }
      var granted := Allocate();
      if !granted { return; }
      Chase(records, query.value);
      if !failed { FoundIsNotEmpty(records, kind, Canon(query.value), {}); }
      if |values| == 0 && !failed { stuck := true; }
    }
  }
}
