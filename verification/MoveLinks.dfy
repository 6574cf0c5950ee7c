/** Which moves a move leads to, read off the arcade's memory, and what the gathered graph holds (tools/convert_jun_moves.py). */
module MoveLinks {
  import opened Options
  import opened Bytes
  import opened JunSource
  import opened JunConvert
  import opened MoveGraph
  import JunRows

  // ---- Links, by the bytes that make them ----

  function RecordAt(address: word): nat { address % 0x400000 }

  /** Row k of the hit table behind an index. */
  function HitAt(index: half, k: nat): nat { 0xec8bc + 10 * (index + k) }

  function ReactionAt(id: half): nat { 0x19ff88 + 56 * id }

  /** Row k of a hit table is met: it is read, and no row before it ends the table. */
  ghost predicate IsMet(ram: seq<byte>, index: half, k: nat) {
    && k < 128 && (forall j: nat | j <= k :: HitAt(index, j) + 10 <= |ram|)
    && forall j: nat | j < k :: Half(ram, HitAt(index, j)) != 0xffff
  }

  ghost predicate EndsAt(ram: seq<byte>, index: half, e: nat) {
    IsMet(ram, index, e) && Half(ram, HitAt(index, e)) == 0xffff
  }

  /** A reaction leads to each of its fourteen aliases; reaction zero is none. */
  ghost predicate ReactionLeads(ram: seq<byte>, id: half, alias: half) {
    id != 0 && ReactionAt(id) + 56 <= |ram| && exists j: nat :: j < 14 && alias == Half(ram, ReactionAt(id) + 28 + 2 * j)
  }

  /** Both reactions of a hit row lead on. */
  ghost predicate HitLeads(ram: seq<byte>, index: half, k: nat, alias: half) {
    && IsMet(ram, index, k)
    && (ReactionLeads(ram, Half(ram, HitAt(index, k) + 4), alias) || ReactionLeads(ram, Half(ram, HitAt(index, k) + 6), alias))
  }

  /** The character rules the donor always meets. */
  predicate AlwaysMet(rule: byte) {
    rule == 0 || rule == 0xed || rule == 29 || (34 <= rule <= 66 && rule != 62) || rule == 163 || (201 <= rule <= 234 && rule != 231)
  }

  /** The conditions a row may have. */
  predicate IsCondition(number: nat) { (number <= 71 && number != 50) || 80 <= number <= 87 || 96 <= number <= 102 }

  /** A cancel row leads on if it ends its list, or if the donor can use it and its condition and transition translate. */
  predicate RowLeads(ram: seq<byte>, at: nat, alias: half) {
    && at + 14 <= |ram| && alias == Half(ram, at + 6)
    && (Half(ram, at) == 0x8000
        || (AlwaysMet(ram[at + 2]) && ram[at + 1] / 64 != 1 && IsCondition(ram[at + 3] % 128) && ram[at + 8] <= 46 && ram[at + 9] % 64 == 0))
  }

  ghost predicate RowReadable(ram: seq<byte>, at: nat) {
    at + 10 <= |ram| && ReactionReadable(ram, Half(ram, at + 4)) && ReactionReadable(ram, Half(ram, at + 6))
  }

  ghost predicate RowsLead(ram: seq<byte>, pointer: word, alias: half) {
    JunRows.Places(ram, pointer, []).Some? && exists place :: place in JunRows.Places(ram, pointer, []).value && RowLeads(ram, place, alias)
  }

  ghost predicate HitsLead(ram: seq<byte>, index: half, alias: half) {
    exists k: nat :: HitLeads(ram, index, k, alias)
  }

  /** The table ends, and every reaction its rows name can be read. */
  ghost predicate HitsReadable(ram: seq<byte>, index: half) {
    (exists e: nat :: EndsAt(ram, index, e)) && forall k: nat | IsMet(ram, index, k) :: RowReadable(ram, HitAt(index, k))
  }

  /** The record's recovery link, its cancel rows and its hit rows lead on. */
  ghost predicate LeadsTo(ram: seq<byte>, address: word, alias: half) {
    var at := RecordAt(address);
    at + 52 <= |ram| && (alias == Half(ram, at + 16) || RowsLead(ram, Word(ram, at + 12), alias) || HitsLead(ram, Half(ram, at + 20), alias))
  }

  /** Every table the record uses can be read. */
  ghost predicate IsReadable(ram: seq<byte>, address: word) {
    var at := RecordAt(address);
    at + 52 <= |ram| && JunRows.Places(ram, Word(ram, at + 12), []).Some? && HitsReadable(ram, Half(ram, at + 20))
  }

  predicate ReactionReadable(ram: seq<byte>, id: half) { id == 0 || ReactionAt(id) + 56 <= |ram| }

  // ---- Hit tables ----

  ghost predicate IsHit(ram: seq<byte>, at: nat, hit: Hit) {
    at + 10 <= |ram| && hit.rule == Half(ram, at) && hit.reactions == [Half(ram, at + 4), Half(ram, at + 6)]
  }

  /** The hits are the rows from row k up to the end row e. */
  ghost predicate AreHits(ram: seq<byte>, index: half, k: nat, e: nat, hits: seq<Hit>) {
    && k <= e < 128 && |hits| == e - k + 1
    && forall j: nat | k <= j <= e :: IsHit(ram, HitAt(index, j), hits[j - k]) && (hits[j - k].rule == 0xffff <==> j == e)
  }

  lemma {:induction false} HitsRead(ram: seq<byte>, index: half, k: nat) returns (e: nat)
    requires HitRows(ram, index, k).Some?
    ensures AreHits(ram, index, k, e, HitRows(ram, index, k).value)
    decreases 128 - k
  {
    var hit := ReadHit(ram, 0xec8bc + (index + k) * 10).value;
    assert IsHit(ram, HitAt(index, k), hit);
    if hit.rule == 0xffff {
      e := k;
    } else {
      e := HitsRead(ram, index, k + 1);
      var rest := HitRows(ram, index, k + 1).value;
      forall j: nat | k <= j <= e ensures IsHit(ram, HitAt(index, j), ([hit] + rest)[j - k]) && (([hit] + rest)[j - k].rule == 0xffff <==> j == e) {
        if j > k { assert ([hit] + rest)[j - k] == rest[j - (k + 1)]; }
      }
    }
  }

  lemma {:induction false} HitsThere(ram: seq<byte>, index: half, k: nat, e: nat)
    requires EndsAt(ram, index, e) && k <= e
    ensures HitRows(ram, index, k).Some?
    decreases 128 - k
  {
    assert HitAt(index, k) + 10 <= |ram|;
    if k < e { HitsThere(ram, index, k + 1, e); }
  }

  lemma {:induction false} MetAre(ram: seq<byte>, index: half, e: nat, hits: seq<Hit>, k: nat)
    requires AreHits(ram, index, 0, e, hits)
    ensures IsMet(ram, index, k) <==> k <= e
  {
    if k <= e {
      forall j: nat | j <= k ensures HitAt(index, j) + 10 <= |ram| && (j < k ==> Half(ram, HitAt(index, j)) != 0xffff) {
        assert IsHit(ram, HitAt(index, j), hits[j - 0]);
      }
    } else {
      assert IsHit(ram, HitAt(index, e), hits[e - 0]);
    }
  }

  // ---- Reactions ----

  lemma {:induction false} AliasesAre(ram: seq<byte>, id: half, alias: half)
    ensures ReactionAliases(ram, id).Some? <==> ReactionReadable(ram, id)
    ensures ReactionAliases(ram, id).Some? ==> (alias in ReactionAliases(ram, id).value <==> ReactionLeads(ram, id, alias))
  {
    if id != 0 && ReactionReadable(ram, id) {
      var aliases := ReactionAliases(ram, id).value;
      if alias in aliases {
        var j :| 0 <= j < 14 && aliases[j] == alias;
        assert alias == Half(ram, ReactionAt(id) + 28 + 2 * j);
      }
      if ReactionLeads(ram, id, alias) {
        var j: nat :| j < 14 && alias == Half(ram, ReactionAt(id) + 28 + 2 * j);
        assert aliases[j] == alias;
      }
    }
  }

  lemma {:induction false} PairTargets(ram: seq<byte>, a: half, b: half, alias: half)
    ensures ReactionTargets(ram, [a, b]).Some? <==> ReactionReadable(ram, a) && ReactionReadable(ram, b)
    ensures ReactionTargets(ram, [a, b]).Some? ==>
              (alias in ReactionTargets(ram, [a, b]).value <==> ReactionLeads(ram, a, alias) || ReactionLeads(ram, b, alias))
  {
    AliasesAre(ram, a, alias);
    AliasesAre(ram, b, alias);
    assert [a, b][1..] == [b] && [b][1..] == [];
    assert ReactionTargets(ram, [b]) == Joined(ReactionAliases(ram, b), ReactionTargets(ram, []));
    assert ReactionTargets(ram, [a, b]) == Joined(ReactionAliases(ram, a), ReactionTargets(ram, [b]));
  }

  ghost predicate BothLead(ram: seq<byte>, at: nat, alias: half) {
    at + 10 <= |ram| && (ReactionLeads(ram, Half(ram, at + 4), alias) || ReactionLeads(ram, Half(ram, at + 6), alias))
  }

  lemma {:induction false} HitTargetsAre(ram: seq<byte>, hits: seq<Hit>, ats: seq<nat>, alias: half)
    requires |hits| == |ats| && forall i | 0 <= i < |hits| :: IsHit(ram, ats[i], hits[i])
    ensures HitTargets(ram, hits).Some? <==> forall i | 0 <= i < |ats| :: RowReadable(ram, ats[i])
    ensures HitTargets(ram, hits).Some? ==> (alias in HitTargets(ram, hits).value <==> exists i :: 0 <= i < |ats| && BothLead(ram, ats[i], alias))
    decreases |hits|
  {
    if hits != [] {
      PairTargets(ram, Half(ram, ats[0] + 4), Half(ram, ats[0] + 6), alias);
      HitTargetsAre(ram, hits[1..], ats[1..], alias);
      assert RowReadable(ram, ats[0]) <==> ReactionTargets(ram, hits[0].reactions).Some?;
      if forall i | 0 <= i < |ats| :: RowReadable(ram, ats[i]) {
        forall i | 0 <= i < |ats[1..]| ensures RowReadable(ram, ats[1..][i]) { assert ats[1..][i] == ats[i + 1]; }
      }
      if exists i :: 0 <= i < |ats| && BothLead(ram, ats[i], alias) {
        var i :| 0 <= i < |ats| && BothLead(ram, ats[i], alias);
        if i > 0 { assert BothLead(ram, ats[1..][i - 1], alias); }
      }
      if exists i :: 0 <= i < |ats[1..]| && BothLead(ram, ats[1..][i], alias) {
        var i :| 0 <= i < |ats[1..]| && BothLead(ram, ats[1..][i], alias);
        assert BothLead(ram, ats[i + 1], alias);
      }
    }
  }

  // ---- Cancel rows ----

  lemma {:induction false} EligibleLeads(ram: seq<byte>, at: nat, row: Row)
    requires JunRows.IsRow(ram, at, row)
    ensures Eligible(row) <==> RowLeads(ram, at, row.next)
  {
    JunRows.HalfBytes(ram, at);
    JunRows.HalfBytes(ram, at + 2);
    JunRows.HalfBytes(ram, at + 8);
    JunRows.TopBits(row.cmd, ram[at], ram[at + 1]);
    JunRows.TopBits(row.kind, ram[at + 8], ram[at + 9]);
    RuleAlwaysMet(ram[at + 2]);
    LowSeven(row.kind, ram[at + 8], ram[at + 9]);
  }

  lemma {:induction false} RuleAlwaysMet(rule: byte)
    ensures CharacterRequirement(rule) == Some(true) <==> AlwaysMet(rule)
  {}

  lemma {:induction false} LowSeven(kind: half, low: byte, high: byte)
    requires kind == low + 256 * high
    ensures low < 128 ==> (Transition(kind).Some? <==> low <= 46)
  {
    TransitionsDiffer(kind, kind);
    if low < 128 { assert kind % 128 == low; }
  }

  lemma {:induction false} RowTargetsAre(ram: seq<byte>, rows: seq<Row>, places: seq<nat>, alias: half)
    requires JunRows.RowsAt(ram, rows, places)
    ensures alias in RowTargets(rows) <==> exists place :: place in places && RowLeads(ram, place, alias)
    decreases |rows|
  {
    if rows != [] {
      assert JunRows.IsRow(ram, places[0], rows[0]);
      EligibleLeads(ram, places[0], rows[0]);
      forall k | 0 <= k < |rows[1..]| ensures JunRows.IsRow(ram, places[1..][k], rows[1..][k]) {
        assert JunRows.IsRow(ram, places[k + 1], rows[k + 1]);
      }
      RowTargetsAre(ram, rows[1..], places[1..], alias);
      assert forall place :: place in places <==> place == places[0] || place in places[1..];
    }
  }

  // ---- The targets of a move ----

  lemma {:induction false} RecordWords(ram: seq<byte>, address: word)
    ensures Record(ram, address).Some? <==> RecordAt(address) + 52 <= |ram|
    ensures Record(ram, address).Some? ==>
              var v, at := Record(ram, address).value, RecordAt(address);
              v[3] == Word(ram, at + 12) && v[4] % 0x10000 == Half(ram, at + 16) && v[5] % 0x10000 == Half(ram, at + 20)
  {}

  lemma {:induction false} HitsMet(ram: seq<byte>, index: half, e: nat, hits: seq<Hit>, alias: half)
    requires AreHits(ram, index, 0, e, hits)
    ensures EndsAt(ram, index, e)
    ensures HitTargets(ram, hits).Some? <==> forall k: nat | IsMet(ram, index, k) :: RowReadable(ram, HitAt(index, k))
    ensures HitTargets(ram, hits).Some? ==> (alias in HitTargets(ram, hits).value <==> exists k: nat :: HitLeads(ram, index, k, alias))
  {
    var ats := seq(e + 1, k requires 0 <= k <= e => HitAt(index, k));
    forall i | 0 <= i < |hits| ensures IsHit(ram, ats[i], hits[i]) { assert IsHit(ram, HitAt(index, i), hits[i - 0]); }
    HitTargetsAre(ram, hits, ats, alias);
    forall k: nat ensures IsMet(ram, index, k) <==> k <= e { MetAre(ram, index, e, hits, k); }
    assert IsHit(ram, HitAt(index, e), hits[e - 0]);
    if forall i | 0 <= i < |ats| :: RowReadable(ram, ats[i]) {
      forall k: nat | IsMet(ram, index, k) ensures RowReadable(ram, HitAt(index, k)) { assert ats[k] == HitAt(index, k); }
    }
    if exists i :: 0 <= i < |ats| && BothLead(ram, ats[i], alias) {
      var i :| 0 <= i < |ats| && BothLead(ram, ats[i], alias);
      assert HitLeads(ram, index, i, alias);
    }
    if exists k: nat :: HitLeads(ram, index, k, alias) {
      var k: nat :| HitLeads(ram, index, k, alias);
      assert BothLead(ram, ats[k], alias);
    }
  }

  /** What the hit rows of a table contribute to the search. */
  function HitPart(ram: seq<byte>, index: half): Option<seq<half>> {
    match HitRows(ram, index, 0)
    case None => None
    case Some(hits) => HitTargets(ram, hits)
  }

  lemma {:induction false} HitsAre(ram: seq<byte>, index: half, alias: half)
    ensures HitPart(ram, index).Some? <==> HitsReadable(ram, index)
    ensures HitPart(ram, index).Some? ==> (alias in HitPart(ram, index).value <==> HitsLead(ram, index, alias))
  {
    if e: nat :| EndsAt(ram, index, e) { HitsThere(ram, index, 0, e); }
    if HitRows(ram, index, 0).Some? {
      var hits := HitRows(ram, index, 0).value;
      var e := HitsRead(ram, index, 0);
      HitsMet(ram, index, e, hits, alias);
    }
  }

  function RowPart(ram: seq<byte>, pointer: word): Option<seq<half>> {
    match CancelRows(ram, pointer, [])
    case None => None
    case Some(rows) => Some(RowTargets(rows))
  }

  lemma {:induction false} RowsAre(ram: seq<byte>, pointer: word, alias: half)
    ensures RowPart(ram, pointer).Some? <==> JunRows.Places(ram, pointer, []).Some?
    ensures RowPart(ram, pointer).Some? ==> (alias in RowPart(ram, pointer).value <==> RowsLead(ram, pointer, alias))
  {
    JunRows.ListPlaced(ram, pointer, []);
    if CancelRows(ram, pointer, []).Some? {
      RowTargetsAre(ram, CancelRows(ram, pointer, []).value, JunRows.Places(ram, pointer, []).value, alias);
    }
  }

  lemma {:induction false} TargetParts(ram: seq<byte>, address: word)
    ensures var at := RecordAt(address);
      Targets(ram, address) ==
      if at + 52 > |ram| then None
      else
        var rows, hits := RowPart(ram, Word(ram, at + 12)), HitPart(ram, Half(ram, at + 20));
        if rows.None? || hits.None? then None else Some([Half(ram, at + 16)] + rows.value + hits.value)
  {
    RecordWords(ram, address);
  }

  /** What the search follows from a move is exactly what its record, its cancel rows and its hit rows lead to. */
  lemma {:induction false} TargetsAre(ram: seq<byte>, address: word, alias: half)
    ensures Targets(ram, address).Some? <==> IsReadable(ram, address)
    ensures Targets(ram, address).Some? ==> (alias in Targets(ram, address).value <==> LeadsTo(ram, address, alias))
  {
    TargetParts(ram, address);
    if RecordAt(address) + 52 <= |ram| {
      RowsAre(ram, Word(ram, RecordAt(address) + 12), alias);
      HitsAre(ram, Half(ram, RecordAt(address) + 20), alias);
    }
  }

  // ---- The gathered graph ----

  /** Every alias a gathered move leads to, if inside the table, has a converted target. */
  lemma {:induction false} LinksGathered(s: Source, i: nat, alias: half)
    requires FromGraph(s) && i < |s.addresses| && LeadsTo(s.ram, s.addresses[i], alias) && alias < |s.aliases|
    ensures Target(s, alias).Some?
  {
    assert s.addresses[i] in set a | a in s.addresses;
    TargetsAre(s.ram, s.addresses[i], alias);
    TargetsFound(s, i, alias);
  }

  lemma {:induction false} GatheredReadable(s: Source, i: nat)
    requires FromGraph(s) && i < |s.addresses|
    ensures IsReadable(s.ram, s.addresses[i])
  {
    assert s.addresses[i] in set a | a in s.addresses;
    TargetsAre(s.ram, s.addresses[i], 0);
  }

  /**
   * In particular the tables of a gathered move can be read, and both reactions of every row of its hit table, up to the
   * end row, are followed: each of their fourteen aliases has a target.
   */
  lemma {:induction false} ReactionsGathered(s: Source, i: nat, index: half, k: nat, id: half, j: nat)
    requires FromGraph(s) && i < |s.addresses| && j < 14
    requires RecordAt(s.addresses[i]) + 52 <= |s.ram| ==> index == Half(s.ram, RecordAt(s.addresses[i]) + 20)
    requires IsMet(s.ram, index, k) && id != 0
    requires id == Half(s.ram, HitAt(index, k) + 4) || id == Half(s.ram, HitAt(index, k) + 6)
    ensures RecordAt(s.addresses[i]) + 52 <= |s.ram| && ReactionAt(id) + 56 <= |s.ram|
    ensures var alias := Half(s.ram, ReactionAt(id) + 28 + 2 * j); alias < |s.aliases| ==> Target(s, alias).Some?
  {
    GatheredReadable(s, i);
    assert RowReadable(s.ram, HitAt(index, k));
    var alias := Half(s.ram, ReactionAt(id) + 28 + 2 * j);
    assert ReactionLeads(s.ram, id, alias);
    assert HitLeads(s.ram, index, k, alias);
    if alias < |s.aliases| { LinksGathered(s, i, alias); }
  }

  /** A gathered address that is a seed, or that another gathered move leads to. */
  ghost predicate Reached(ram: seq<byte>, aliases: seq<word>, seeds: seq<word>, addresses: set<word>, a: word) {
    a in seeds || exists from, alias: half :: from in addresses && LeadsTo(ram, from, alias) && alias < |aliases| && aliases[alias] == a
  }

  /** Nothing is gathered but the seeds and what gathered moves lead to. */
  lemma {:induction false} OnlyReached(ram: seq<byte>, aliases: seq<word>, seeds: seq<word>, addresses: set<word>)
    requires Contains(seeds, addresses) && MoveGraph.Closed(ram, aliases, addresses)
    requires forall t: set<word> | Contains(seeds, t) && MoveGraph.Closed(ram, aliases, t) :: addresses <= t
    ensures forall a | a in addresses :: Reached(ram, aliases, seeds, addresses, a)
  {
    var t := set a | a in addresses && Reached(ram, aliases, seeds, addresses, a);
    forall a | a in t ensures Targets(ram, a).Some? && LeadsInto(aliases, Targets(ram, a).value, t) {
      var targets := Targets(ram, a).value;
      forall k | 0 <= k < |targets| && targets[k] < |aliases| ensures aliases[targets[k]] in t {
        TargetsAre(ram, a, targets[k]);
        assert aliases[targets[k]] in addresses;
      }
    }
    assert addresses <= t;
  }
}
