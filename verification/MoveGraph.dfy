/** The moves a character can reach: a worklist over cancel rows, recovery links and hit reactions (tools/convert_jun_moves.py). */
module MoveGraph {
  import opened Options
  import opened Bytes
  import opened JunSource
  import opened JunConvert

  // ---- What a move leads to ----

  datatype Hit = Hit(rule: half, reactions: seq<half>)

  function ReadHit(ram: seq<byte>, at: nat): Option<Hit> {
    if at + 10 > |ram| then None else Some(Hit(Half(ram, at), [Half(ram, at + 4), Half(ram, at + 6)]))
  }

  /** Hit rows from row k up to and including the end marker, which must come within 128 rows. */
  function HitRows(ram: seq<byte>, index: half, k: nat): Option<seq<Hit>>
    decreases 128 - k, |ram|
  {
    if k >= 128 then None
    else match ReadHit(ram, 0xec8bc + (index + k) * 10)
      case None => None
      case Some(hit) => if hit.rule == 0xffff then Some([hit]) else Joined(Some([hit]), HitRows(ram, index, k + 1))
  }

  /** The fourteen aliases behind the seven fields of a reaction; reaction zero stands for none. */
  function ReactionAliases(ram: seq<byte>, id: half): Option<seq<half>> {
    var at := 0x19ff88 + id * 56;
    if id == 0 then Some([])
    else if at + 56 > |ram| then None
    else Some(seq(14, k requires 0 <= k < 14 => Half(ram, at + 28 + 2 * k)))
  }

  /** The rows whose destination the conversion will need. */
  predicate Eligible(row: Row) {
    || row.cmd == 0x8000
    || (CharacterRequirement(row.req % 256) == Some(true) && !(row.cmd < 0x8000 && row.cmd / 0x4000 % 2 == 1)
        && Condition(row.req / 256 % 128).Some? && Transition(row.kind).Some? && row.kind / 0x80 % 0x80 == 0)
  }

  function RowTargets(rows: seq<Row>): seq<half> {
    if rows == [] then [] else (if Eligible(rows[0]) then [rows[0].next] else []) + RowTargets(rows[1..])
  }

  function ReactionTargets(ram: seq<byte>, ids: seq<half>): Option<seq<half>> {
    if ids == [] then Some([]) else Joined(ReactionAliases(ram, ids[0]), ReactionTargets(ram, ids[1..]))
  }

  function HitTargets(ram: seq<byte>, hits: seq<Hit>): Option<seq<half>> {
    if hits == [] then Some([]) else Joined(ReactionTargets(ram, hits[0].reactions), HitTargets(ram, hits[1..]))
  }

  /** All aliases a move at this address leads to; none if any table it uses is malformed. */
  function Targets(ram: seq<byte>, address: word): Option<seq<half>> {
    match Record(ram, address)
    case None => None
    case Some(v) =>
      match CancelRows(ram, v[3], [])
      case None => None
      case Some(rows) =>
        match HitRows(ram, v[5] % 0x10000, 0)
        case None => None
        case Some(hits) => Joined(Some([v[4] % 0x10000] + RowTargets(rows)), HitTargets(ram, hits))
  }

  predicate LeadsInto(aliases: seq<word>, targets: seq<half>, addresses: set<word>) {
    forall k | 0 <= k < |targets| :: targets[k] < |aliases| ==> aliases[targets[k]] in addresses
  }

  /** Every move of the set can be read, and leads only to moves of the set. */
  ghost predicate Closed(ram: seq<byte>, aliases: seq<word>, addresses: set<word>) {
    forall a | a in addresses :: Targets(ram, a).Some? && LeadsInto(aliases, Targets(ram, a).value, addresses)
  }

  ghost predicate Contains(seeds: seq<word>, addresses: set<word>) {
    forall a | a in seeds :: a in addresses
  }

  // ---- The worklist ----

  method ReadHits(ram: seq<byte>, index: half) returns (r: Option<seq<Hit>>)
    ensures r == HitRows(ram, index, 0)
  {
    var hits: seq<Hit> := [];
    JoinedEmpty(HitRows(ram, index, 0));
    for k := 0 to 128
      invariant HitRows(ram, index, 0) == Joined(Some(hits), HitRows(ram, index, k))
    {
      var hit := ReadHit(ram, 0xec8bc + (index + k) * 10);
      if hit.None? {
        return None;
      }
      if hit.value.rule == 0xffff {
        return Some(hits + [hit.value]);
      }
      JoinedStep(hits, [hit.value], HitRows(ram, index, k + 1));
      hits := hits + [hit.value];
    }
    return None;
  }

  method FollowRows(rows: seq<Row>) returns (targets: seq<half>)
    ensures targets == RowTargets(rows)
  {
    targets := [];
    for i := 0 to |rows|
      invariant targets + RowTargets(rows[i..]) == RowTargets(rows)
    {
      var next := if Eligible(rows[i]) then [rows[i].next] else [];
      assert rows[i..][1..] == rows[i + 1..] && targets + (next + RowTargets(rows[i + 1..])) == (targets + next) + RowTargets(rows[i + 1..]);
      targets := targets + next;
    }
  }

  method FollowHits(ram: seq<byte>, hits: seq<Hit>) returns (targets: Option<seq<half>>)
    ensures targets == HitTargets(ram, hits)
  {
    var found: seq<half> := [];
    JoinedEmpty(HitTargets(ram, hits));
    for i := 0 to |hits|
      invariant HitTargets(ram, hits) == Joined(Some(found), HitTargets(ram, hits[i..]))
    {
      var more := ReactionTargets(ram, hits[i].reactions);
      assert hits[i..][1..] == hits[i + 1..];
      if more.None? {
        return None;
      }
      JoinedStep(found, more.value, HitTargets(ram, hits[i + 1..]));
      found := found + more.value;
    }
    assert found + [] == found;
    return Some(found);
  }

  method Follow(ram: seq<byte>, address: word) returns (targets: Option<seq<half>>)
    ensures targets == Targets(ram, address)
  {
    var v := Record(ram, address);
    if v.None? {
      return None;
    }
    var rows := Flatten(ram, v.value[3], []);
    var hits := ReadHits(ram, v.value[5] % 0x10000);
    if rows.None? || hits.None? {
      return None;
    }
    var links := FollowRows(rows.value);
    var reactions := FollowHits(ram, hits.value);
    return Joined(Some([v.value[4] % 0x10000] + links), reactions);
  }

  /** A state of the search: what is found lies in every closed set with the seeds, and all of it is followed but the pending. */
  ghost predicate Searching(ram: seq<byte>, aliases: seq<word>, seeds: seq<word>, addresses: set<word>, pending: seq<word>) {
    && Contains(seeds, addresses) && Contains(pending, addresses)
    && (forall a | a in addresses && a !in pending :: Targets(ram, a).Some? && LeadsInto(aliases, Targets(ram, a).value, addresses))
    && (forall t: set<word> | Contains(seeds, t) && Closed(ram, aliases, t) :: addresses <= t)
  }

  /** The first n targets are entered. */
  ghost predicate Entering(aliases: seq<word>, targets: seq<half>, n: nat, addresses0: set<word>, pending0: seq<word>, addresses: set<word>, pending: seq<word>)
    requires n <= |targets|
  {
    && LeadsInto(aliases, targets[..n], addresses) && addresses0 <= addresses
    && (forall a | a in pending0 :: a in pending)
    && (forall a | a in addresses && a !in addresses0 :: a in pending)
    && (forall a | a in pending && a !in pending0 :: a in addresses && a !in addresses0)
    && (forall t: set<word> | addresses0 <= t && LeadsInto(aliases, targets, t) :: addresses <= t)
    && (addresses == addresses0 ==> pending == pending0)
    && (forall a | a in addresses && a !in addresses0 :: a in aliases)
  }

  method Enter(aliases: seq<word>, targets: seq<half>, addresses0: set<word>, pending0: seq<word>)
    returns (addresses: set<word>, pending: seq<word>)
    ensures Entering(aliases, targets, |targets|, addresses0, pending0, addresses, pending)
  {
    addresses, pending := addresses0, pending0;
    for n := 0 to |targets|
      invariant Entering(aliases, targets, n, addresses0, pending0, addresses, pending)
    {
      assert targets[..n + 1] == targets[..n] + [targets[n]];
      if targets[n] < |aliases| && aliases[targets[n]] !in addresses {
        addresses, pending := addresses + {aliases[targets[n]]}, pending + [aliases[targets[n]]];
      }
    }
    assert targets[..|targets|] == targets;
  }

  lemma {:induction false} FollowedOne(ram: seq<byte>, aliases: seq<word>, seeds: seq<word>, addresses: set<word>, pending: seq<word>, addresses': set<word>, pending': seq<word>)
    requires Searching(ram, aliases, seeds, addresses, pending) && pending != []
    requires Targets(ram, pending[|pending| - 1]).Some?
    requires var targets := Targets(ram, pending[|pending| - 1]).value;
             Entering(aliases, targets, |targets|, addresses, pending[..|pending| - 1], addresses', pending')
    ensures Searching(ram, aliases, seeds, addresses', pending')
  {
    var a0 := pending[|pending| - 1];
    var targets := Targets(ram, a0).value;
    assert targets[..|targets|] == targets;
    forall a | a in addresses' && a !in pending' ensures Targets(ram, a).Some? && LeadsInto(aliases, Targets(ram, a).value, addresses') {
      if a != a0 { assert a !in pending; }
    }
    forall t: set<word> | Contains(seeds, t) && Closed(ram, aliases, t) ensures addresses' <= t {
      assert a0 in addresses && addresses <= t;
    }
  }

  /** The least closed set with the seeds; none exactly when no closed set contains them. */
  method CloseGraph(ram: seq<byte>, aliases: seq<word>, seeds: seq<word>) returns (r: Option<set<word>>)
    ensures r.Some? ==> Contains(seeds, r.value) && Closed(ram, aliases, r.value)
    ensures r.Some? ==> forall t: set<word> | Contains(seeds, t) && Closed(ram, aliases, t) :: r.value <= t
    ensures r.None? ==> forall t: set<word> | Contains(seeds, t) :: !Closed(ram, aliases, t)
  {
    var addresses: set<word> := set a | a in seeds;
    var pending := seeds;
    ghost var universe := addresses + (set a | a in aliases);
    while pending != []
      invariant Searching(ram, aliases, seeds, addresses, pending) && addresses <= universe
      invariant forall a | a in aliases :: a in universe
      decreases |universe - addresses|, |pending|
    {
      var address := pending[|pending| - 1];
      var targets := Follow(ram, address);
      if targets.None? {
        assert address in addresses;
        return None;
      }
      var grown, left := Enter(aliases, targets.value, addresses, pending[..|pending| - 1]);
      FollowedOne(ram, aliases, seeds, addresses, pending, grown, left);
      assert grown != addresses ==> universe - grown < universe - addresses;
      Shrinks(universe - grown, universe - addresses);
      addresses, pending := grown, left;
    }
    return Some(addresses);
  }

  lemma {:induction false} Shrinks(small: set<word>, large: set<word>)
    requires small <= large
    ensures |small| <= |large| && (small < large ==> |small| < |large|)
  {
    assert |large| == |small| + |large - small|;
    if small < large { assert |large - small| > 0; }
  }

  // ---- The converter's inputs ----

  ghost predicate Ascending(xs: seq<word>) {
    forall i, j | 0 <= i < j < |xs| :: xs[i] < xs[j]
  }

  method LeastOf(s: set<word>) returns (m: word)
    requires s != {}
    ensures m in s && forall x | x in s :: m <= x
  {
    m :| m in s;
    var rest := s - {m};
    while rest != {}
      invariant m in s && rest <= s && forall x | x in s && x !in rest :: m <= x
      decreases |rest|
    {
      var x :| x in rest;
      rest := rest - {x};
      if x < m { m := x; }
    }
  }

  method Sorted(s: set<word>) returns (xs: seq<word>)
    ensures Ascending(xs) && forall x :: x in xs <==> x in s
  {
    xs := [];
    var rest := s;
    while rest != {}
      invariant Ascending(xs) && rest <= s && (forall x :: x in xs <==> x in s && x !in rest)
      invariant forall x, y | x in xs && y in rest :: x < y
      decreases |rest|
    {
      var m := LeastOf(rest);
      forall i | 0 <= i < |xs| ensures xs[i] < m { assert xs[i] in xs; }
      xs, rest := xs + [m], rest - {m};
    }
  }

  /** The records of the closed graph in address order, as the conversion takes them up. */
  ghost predicate FromGraph(s: Source) {
    && |s.raw| == |s.addresses| && Ascending(s.addresses)
    && Closed(s.ram, s.aliases, set a | a in s.addresses)
    && forall i | 0 <= i < |s.addresses| :: Record(s.ram, s.addresses[i]) == Some(s.raw[i])
  }

  // ---- The seeds ----

  /** The address of a move no donor has. */
  const ABSENT: word := 0x8009374c

  /** The addresses of the given aliases, but for the absent move. */
  function Present(aliases: seq<word>, ids: seq<nat>): (seeds: seq<word>)
    requires forall k | 0 <= k < |ids| :: ids[k] < |aliases|
    ensures forall a :: a in seeds <==> a != ABSENT && exists k :: 0 <= k < |ids| && aliases[ids[k]] == a
    decreases |ids|
  {
    if ids == [] then []
    else
      var n := |ids| - 1;
      Present(aliases, ids[..n]) + if aliases[ids[n]] != ABSENT then [aliases[ids[n]]] else []
  }

  function Locomotion(): (ids: seq<nat>)
    ensures |ids| == 288 && forall k | 0 <= k < 288 :: ids[k] == 56 + k
  {
    seq(288, k requires 0 <= k < 288 => 56 + k)
  }

  lemma {:induction false} CommonAre(aliases: seq<word>)
    requires |aliases| == 5515
    ensures forall a :: a in Present(aliases, Locomotion()) <==> a != ABSENT && exists i :: 56 <= i < 344 && aliases[i] == a
  {
    var ids := Locomotion();
    forall a | a in Present(aliases, ids) ensures exists i :: 56 <= i < 344 && aliases[i] == a {
      var k :| 0 <= k < |ids| && aliases[ids[k]] == a;
      assert aliases[56 + k] == a;
    }
    forall i | 56 <= i < 344 && aliases[i] != ABSENT ensures aliases[i] in Present(aliases, ids) {
      assert ids[i - 56] == i;
    }
  }

  /** The recorded moves, the common locomotion, and the engine's entry points. */
  function Seeds(aliases: seq<word>, records: seq<word>, natives: seq<nat>): (seeds: seq<word>)
    requires |aliases| == 5515 && forall k | 0 <= k < |natives| :: natives[k] < |aliases|
    ensures forall a :: a in seeds <==>
              || a in records
              || (a != ABSENT && ((exists i :: 56 <= i < 344 && aliases[i] == a) || exists k :: 0 <= k < |natives| && aliases[natives[k]] == a))
  {
    var common, entries := Present(aliases, Locomotion()), Present(aliases, natives);
    CommonAre(aliases);
    records + common + entries
  }

  method Gather(ram: seq<byte>, bank: seq<byte>, aliases: seq<word>, records: seq<word>, natives: seq<nat>, groups: set<half>, native: seq<seq<word>>)
    returns (r: Option<Source>)
    requires |aliases| == 5515 && forall k | 0 <= k < |natives| :: natives[k] < |aliases|
    ensures r.Some? ==> FromGraph(r.value) && Contains(Seeds(aliases, records, natives), set a | a in r.value.addresses)
    ensures r.Some? ==> r.value.ram == ram && r.value.bank == bank && r.value.aliases == aliases && r.value.groups == groups && r.value.native == native
    ensures r.Some? ==> forall t: set<word> | Contains(Seeds(aliases, records, natives), t) && Closed(ram, aliases, t) ::
                          forall a | a in r.value.addresses :: a in t
    ensures r.None? ==> forall t: set<word> | Contains(Seeds(aliases, records, natives), t) :: !Closed(ram, aliases, t)
  {
    var seeds := Seeds(aliases, records, natives);
    var graph := CloseGraph(ram, aliases, seeds);
    if graph.None? {
      return None;
    }
    var addresses := Sorted(graph.value);
    assert graph.value == set a | a in addresses;
    var raw: seq<seq<word>> := [];
    for i := 0 to |addresses|
      invariant |raw| == i && forall k | 0 <= k < i :: Record(ram, addresses[k]) == Some(raw[k])
    {
      assert addresses[i] in graph.value && Targets(ram, addresses[i]).Some?;
      raw := raw + [Record(ram, addresses[i]).value];
    }
    return Some(Source(ram, bank, aliases, addresses, raw, groups, native));
  }

  /** The neutral move is always among the records, unless it is the absent one. */
  lemma {:induction false} NeutralGathered(s: Source, records: seq<word>, natives: seq<nat>)
    requires |s.aliases| == 5515 && forall k | 0 <= k < |natives| :: natives[k] < |s.aliases|
    requires Contains(Seeds(s.aliases, records, natives), set a | a in s.addresses) && s.aliases[56] != ABSENT
    ensures s.aliases[56] in s.addresses
  {
    assert s.aliases[56] in Seeds(s.aliases, records, natives);
  }

  // ---- No destination is lost ----

  lemma {:induction false} RowTargetsHave(rows: seq<Row>, i: nat)
    requires i < |rows| && Eligible(rows[i])
    ensures rows[i].next in RowTargets(rows)
    decreases i
  {
    if i > 0 { RowTargetsHave(rows[1..], i - 1); }
  }

  lemma {:induction false} TargetsFound(s: Source, i: nat, alias: half)
    requires FromGraph(s) && i < |s.addresses| && alias in Targets(s.ram, s.addresses[i]).value && alias < |s.aliases|
    ensures Target(s, alias).Some?
  {
    var a := s.addresses[i];
    assert a in set x | x in s.addresses;
    var targets := Targets(s.ram, a).value;
    var k :| 0 <= k < |targets| && targets[k] == alias;
    assert s.aliases[targets[k]] in set x | x in s.addresses;
  }

  /** Every row the conversion could emit or end with has a converted destination, unless its alias lies outside the table. */
  lemma {:induction false} DestinationsConverted(s: Source, i: nat, k: nat)
    requires FromGraph(s) && i < |s.addresses| && CancelRows(s.ram, s.raw[i][3], []).Some?
    requires k < |CancelRows(s.ram, s.raw[i][3], []).value|
    ensures var row := CancelRows(s.ram, s.raw[i][3], []).value[k];
            Eligible(row) && row.next < |s.aliases| ==> Target(s, row.next).Some?
  {
    var rows := CancelRows(s.ram, s.raw[i][3], []).value;
    if Eligible(rows[k]) && rows[k].next < |s.aliases| {
      RowTargetsHave(rows, k);
      assert s.addresses[i] in set x | x in s.addresses;
      TargetsFound(s, i, rows[k].next);
    }
  }

  /** A row that is neither excluded nor untranslatable is one whose destination the search followed. */
  lemma {:induction false} ConvertedIsEligible(s: Source, patterns: seq<Pattern>, row: Row)
    requires ConvertRow(s, patterns, row).Emit? || ConvertRow(s, patterns, row).Last?
    ensures Eligible(row)
  {}

  /** No row is dropped for want of a destination: only for a missing rule, condition, transition or input, or a bad alias. */
  lemma {:induction false} DroppedRows(s: Source, i: nat, k: nat, patterns: seq<Pattern>)
    requires FromGraph(s) && i < |s.addresses| && CancelRows(s.ram, s.raw[i][3], []).Some?
    requires k < |CancelRows(s.ram, s.raw[i][3], []).value|
    requires ConvertRow(s, patterns, CancelRows(s.ram, s.raw[i][3], []).value[k]) == Skip(false)
    ensures var row := CancelRows(s.ram, s.raw[i][3], []).value[k];
            || row.next >= |s.aliases| || CharacterRequirement(row.req % 256).None? || Condition(row.req / 256 % 128).None?
            || Transition(row.kind).None? || Command(s, patterns, row.cmd) == Some(None)
  {
    DestinationsConverted(s, i, k);
  }

  /** The recovery link of every record is converted too. */
  lemma {:induction false} RecoveriesConverted(s: Source, i: nat)
    requires FromGraph(s) && i < |s.addresses| && s.raw[i][4] % 0x10000 < |s.aliases|
    ensures Target(s, s.raw[i][4] % 0x10000).Some?
  {
    assert s.addresses[i] in set x | x in s.addresses;
    var targets := Targets(s.ram, s.addresses[i]).value;
    assert targets[0] == s.raw[i][4] % 0x10000;
    TargetsFound(s, i, s.raw[i][4] % 0x10000);
  }
}
