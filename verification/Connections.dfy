/** GraphQL connections read page by page, several at a time, each by its own cursor. */
module Connections {
  import opened Collections
  import opened Wrappers

  datatype Node = Node(id: string, text: string)

  datatype Connection = Connection(total: nat, nodes: seq<Node>, hasNext: bool, endCursor: Option<string>)

  /** The connection of each key at each cursor; `cursors` are all that the server ever hands out. */
  datatype Host = Host(page: (string, Option<string>) -> Connection, cursors: set<string>)

  ghost predicate HostIsFinite(host: Host) {
    forall key, cursor :: host.page(key, cursor).endCursor.Some? ==> host.page(key, cursor).endCursor.value in host.cursors
  }

  function Ids(nodes: seq<Node>): (ids: seq<string>)
    ensures |ids| == |nodes| && forall i :: 0 <= i < |nodes| ==> ids[i] == nodes[i].id
  {
    seq(|nodes|, i requires 0 <= i < |nodes| => nodes[i].id)
  }

  // ---- One page ----

  /** What is kept of one connection while its pages are read; the source keeps one dictionary for each part. */
  datatype Reading = Reading(total: Option<nat>, nodes: seq<Node>, seenNodes: set<string>, seenCursors: set<string>)

  ghost predicate ReadingIsSound(reading: Reading) {
    && Distinct(Ids(reading.nodes))
    && forall id :: id in reading.seenNodes <==> id in Ids(reading.nodes)
  }

  /** The checks of _append_issue_relation_page and of the loop of closing_issue_references. */
  ghost predicate PageFits(reading: Reading, page: Connection) {
    && (reading.total.Some? ==> reading.total.value == page.total)
    && Distinct(Ids(reading.nodes + page.nodes))
    && |reading.nodes| + |page.nodes| <= page.total
    && (if page.hasNext
        then page.endCursor.Some? && page.endCursor.value != "" && page.endCursor.value !in reading.seenCursors
        else |reading.nodes| + |page.nodes| == page.total)
  }

  function Extended(reading: Reading, page: Connection): Reading {
    Reading(Some(page.total), reading.nodes + page.nodes, reading.seenNodes + (set id | id in Ids(page.nodes)),
      if page.hasNext && page.endCursor.Some? then reading.seenCursors + {page.endCursor.value} else reading.seenCursors)
  }

  /** The nodes of a page, none of which may have been seen. */
  method AppendNodes(reading: Reading, page: Connection) returns (r: Option<Reading>)
    requires ReadingIsSound(reading)
    ensures r.Some? <==> Distinct(Ids(reading.nodes + page.nodes))
    ensures r.Some? ==>
      && ReadingIsSound(r.value) && r.value.nodes == reading.nodes + page.nodes && r.value.total == reading.total
      && r.value.seenCursors == reading.seenCursors
      && r.value.seenNodes == reading.seenNodes + (set id | id in Ids(page.nodes))
  {
    hide Distinct;
    var current := reading;
    assert reading.nodes + page.nodes[..0] == reading.nodes;
    for i := 0 to |page.nodes|
      invariant ReadingIsSound(current) && current.nodes == reading.nodes + page.nodes[..i]
      invariant current.total == reading.total && current.seenCursors == reading.seenCursors
      invariant current.seenNodes == reading.seenNodes + (set id | id in Ids(page.nodes[..i]))
    {
      var node := page.nodes[i];
      assert page.nodes[..i + 1] == page.nodes[..i] + [node];
      if node.id in current.seenNodes {
        SeenTwice(current.nodes, node, page.nodes[i + 1..]);
        assert reading.nodes + page.nodes == current.nodes + [node] + page.nodes[i + 1..];
        return None;
      }
      OneMoreNode(current, node);
      NewIds(page.nodes[..i], node);
      current := current.(nodes := current.nodes + [node], seenNodes := current.seenNodes + {node.id});
    }
    assert page.nodes[..|page.nodes|] == page.nodes;
    r := Some(current);
  }

  lemma NewIds(nodes: seq<Node>, node: Node)
    ensures (set id | id in Ids(nodes + [node])) == (set id | id in Ids(nodes)) + {node.id}
  {
    assert Ids(nodes + [node]) == Ids(nodes) + [node.id];
  }

  lemma SeenTwice(nodes: seq<Node>, node: Node, rest: seq<Node>)
    requires node.id in Ids(nodes)
    ensures !Distinct(Ids(nodes + [node] + rest))
  {
    var i :| 0 <= i < |nodes| && Ids(nodes)[i] == node.id;
    var ids := Ids(nodes + [node] + rest);
    assert ids[i] == node.id && ids[|nodes|] == node.id;
  }

  lemma OneMoreNode(reading: Reading, node: Node)
    requires ReadingIsSound(reading) && node.id !in reading.seenNodes
    ensures ReadingIsSound(reading.(nodes := reading.nodes + [node], seenNodes := reading.seenNodes + {node.id}))
  {
    assert Ids(reading.nodes + [node]) == Ids(reading.nodes) + [node.id];
  }

  /** _append_issue_relation_page; the cursor returned is None when the connection is read. */
  method AppendPage(reading: Reading, page: Connection) returns (r: Result<(Reading, Option<string>)>)
    requires ReadingIsSound(reading)
    ensures r.Ok? <==> PageFits(reading, page)
    ensures r.Ok? ==> r.value == (Extended(reading, page), if page.hasNext then page.endCursor else None)
    ensures r.Ok? ==> ReadingIsSound(r.value.0)
  {
    hide Distinct, Ids;
    if reading.total.Some? && reading.total.value != page.total {
      return Failure("count changed while paging");
    }
    var appended := AppendNodes(reading, page);
    if appended.None? {
      return Failure("duplicate member");
    }
    var after := appended.value.(total := Some(page.total));
    if |after.nodes| > page.total {
      return Failure("too many members");
    }
    if !page.hasNext {
      if |after.nodes| != page.total {
        return Failure("advertised another number of members");
      }
      return Ok((after, None));
    }
    if page.endCursor.None? || page.endCursor.value == "" || page.endCursor.value in after.seenCursors {
      return Failure("invalid cursor");
    }
    r := Ok((after.(seenCursors := after.seenCursors + {page.endCursor.value}), page.endCursor));
  }

  // ---- One connection ----

  /** A walk over the pages of a connection, by the cursors that lead to them. */
  ghost predicate IsWalk(host: Host, key: string, walk: seq<Option<string>>) {
    && walk != [] && walk[0] == None
    && forall i :: 0 <= i < |walk| - 1 ==> LeadsTo(host, key, walk[i], walk[i + 1])
  }

  ghost predicate LeadsTo(host: Host, key: string, from: Option<string>, to: Option<string>) {
    && host.page(key, from).hasNext && to == host.page(key, from).endCursor && to.Some? && to.value != ""
  }

  ghost function Collected(host: Host, key: string, walk: seq<Option<string>>): seq<Node> {
    if walk == [] then []
    else Collected(host, key, walk[..|walk| - 1]) + host.page(key, walk[|walk| - 1]).nodes
  }

  /** The pages of a walk agree on the total, repeat no node and no cursor, and are all there are. */
  ghost predicate IsWhole(host: Host, key: string, walk: seq<Option<string>>) {
    && IsWalk(host, key, walk) && Distinct(walk)
    && !host.page(key, walk[|walk| - 1]).hasNext
    && (forall i :: 0 <= i < |walk| ==> host.page(key, walk[i]).total == |Collected(host, key, walk)|)
    && Distinct(Ids(Collected(host, key, walk)))
  }

  /** The nodes are those of the whole connection, each once and in order. */
  ghost predicate IsRead(host: Host, key: string, nodes: seq<Node>) {
    exists walk :: IsWhole(host, key, walk) && nodes == Collected(host, key, walk)
  }

  ghost predicate CanBeRead(host: Host, key: string) {
    exists walk :: IsWhole(host, key, walk)
  }

  /** What is known after the pages before the last cursor of a walk. */
  ghost predicate IsReading(host: Host, key: string, reading: Reading, walk: seq<Option<string>>) {
    && IsWalk(host, key, walk) && Distinct(walk) && ReadingIsSound(reading)
    && var before := walk[..|walk| - 1];
    && reading.nodes == Collected(host, key, before)
    && (reading.total.Some? <==> before != [])
    && (forall i :: 0 <= i < |before| ==> host.page(key, before[i]).total == reading.total.value)
    && (forall cursor :: cursor in reading.seenCursors <==> Some(cursor) in walk)
  }

  lemma ReadingGoesOn(host: Host, key: string, reading: Reading, walk: seq<Option<string>>, page: Connection)
    requires IsReading(host, key, reading, walk) && page == host.page(key, walk[|walk| - 1])
    requires PageFits(reading, page) && ReadingIsSound(Extended(reading, page)) && page.hasNext
    ensures IsReading(host, key, Extended(reading, page), walk + [page.endCursor])
  {
    hide ReadingIsSound, Ids;
    var more := walk + [page.endCursor];
    assert more[..|more| - 1] == walk;
    assert LeadsTo(host, key, walk[|walk| - 1], page.endCursor);
    forall i | 0 <= i < |more| - 1 ensures LeadsTo(host, key, more[i], more[i + 1]) {
      if i < |walk| - 1 {
        assert LeadsTo(host, key, walk[i], walk[i + 1]);
      }
    }
    forall i | 0 <= i < |walk| ensures host.page(key, walk[i]).total == page.total {
      if i < |walk| - 1 {
        assert walk[..|walk| - 1][i] == walk[i];
      }
    }
  }

  lemma ReadingEnds(host: Host, key: string, reading: Reading, walk: seq<Option<string>>, page: Connection)
    requires IsReading(host, key, reading, walk) && page == host.page(key, walk[|walk| - 1])
    requires PageFits(reading, page) && !page.hasNext
    ensures IsRead(host, key, reading.nodes + page.nodes)
  {
    hide ReadingIsSound, Ids;
    assert Collected(host, key, walk) == reading.nodes + page.nodes;
    forall i | 0 <= i < |walk| ensures host.page(key, walk[i]).total == page.total {
      if i < |walk| - 1 {
        assert walk[..|walk| - 1][i] == walk[i];
      }
    }
    assert IsWhole(host, key, walk);
  }

  /** Walks are determined by the connection. */
  lemma {:induction false} WalksAgree(host: Host, key: string, a: seq<Option<string>>, b: seq<Option<string>>, i: nat)
    requires IsWalk(host, key, a) && IsWalk(host, key, b) && i < |a| && i < |b|
    ensures a[i] == b[i]
  {
    if i > 0 {
      WalksAgree(host, key, a, b, i - 1);
      assert LeadsTo(host, key, a[i - 1], a[i]) && LeadsTo(host, key, b[i - 1], b[i]);
    }
  }

  /** A walk goes on only from a page that has a next one. */
  lemma WalkGoesOn(host: Host, key: string, walk: seq<Option<string>>)
    requires IsWalk(host, key, walk)
    ensures forall i :: 0 <= i < |walk| - 1 ==> host.page(key, walk[i]).hasNext
  {
    forall i | 0 <= i < |walk| - 1 ensures host.page(key, walk[i]).hasNext {
      assert LeadsTo(host, key, walk[i], walk[i + 1]);
    }
  }

  lemma WalkIsPrefix(host: Host, key: string, walk: seq<Option<string>>, whole: seq<Option<string>>)
    requires IsWalk(host, key, walk) && IsWhole(host, key, whole)
    ensures walk <= whole
  {
    WalkGoesOn(host, key, walk);
    forall i | 0 <= i < |walk| && i < |whole| ensures walk[i] == whole[i] {
      WalksAgree(host, key, walk, whole, i);
    }
  }

  lemma {:induction false} CollectedPrefix(host: Host, key: string, walk: seq<Option<string>>, whole: seq<Option<string>>)
    requires walk <= whole
    ensures Collected(host, key, walk) <= Collected(host, key, whole)
    decreases |whole|
  {
    if |walk| < |whole| {
      CollectedPrefix(host, key, walk, whole[..|whole| - 1]);
    } else {
      assert walk == whole;
    }
  }

  /** Every page of a connection that can be read fits. */
  lemma WholePagesFit(host: Host, key: string, reading: Reading, walk: seq<Option<string>>, whole: seq<Option<string>>)
    requires IsReading(host, key, reading, walk) && IsWhole(host, key, whole)
    ensures PageFits(reading, host.page(key, walk[|walk| - 1]))
  {
    hide ReadingIsSound, Ids;
    WalkIsPrefix(host, key, walk, whole);
    CollectedPrefix(host, key, walk, whole);
    var page := host.page(key, walk[|walk| - 1]);
    assert Collected(host, key, walk) == reading.nodes + page.nodes;
    DistinctPrefix(Collected(host, key, walk), Collected(host, key, whole));
    assert whole[|walk| - 1] == walk[|walk| - 1];
    if |walk| > 1 {
      assert walk[..|walk| - 1][0] == walk[0] == whole[0];
    }
    if page.hasNext {
      assert |walk| < |whole|;
      assert LeadsTo(host, key, whole[|walk| - 1], whole[|walk|]);
      assert whole[|walk|] !in walk;
    } else {
      WalkGoesOn(host, key, whole);
      assert walk == whole;
    }
  }

  lemma DistinctPrefix(nodes: seq<Node>, all: seq<Node>)
    requires nodes <= all && Distinct(Ids(all))
    ensures Distinct(Ids(nodes))
  {
  }

  // ---- All connections ----

  ghost predicate KeyIsReading(
    host: Host, key: string, reading: Reading, cursor: Option<Option<string>>, walk: seq<Option<string>>, round: nat) {
    if cursor.Some? then
      IsReading(host, key, reading, walk) && cursor.value == walk[|walk| - 1] && |walk| == round + 1
    else IsRead(host, key, reading.nodes)
  }

  /** One page of one key: it fails exactly when the page does not fit. */
  method ReadPage(host: Host, key: string, reading: Reading, cursor: Option<string>, ghost walk: seq<Option<string>>)
    returns (r: Result<(Reading, Option<string>)>, ghost after: seq<Option<string>>)
    requires IsReading(host, key, reading, walk) && cursor == walk[|walk| - 1]
    ensures CanBeRead(host, key) ==> r.Ok?
    ensures r.Ok? && r.value.1.Some? ==> IsReading(host, key, r.value.0, after)
    ensures r.Ok? && r.value.1.Some? ==> |after| == |walk| + 1 && after[|walk|] == r.value.1
    ensures r.Ok? && r.value.1.None? ==> IsRead(host, key, r.value.0.nodes)
  {
    hide IsReading, PageFits, IsWhole;
    ReadingParts(host, key, reading, walk);
    var page := host.page(key, cursor);
    after := walk + [page.endCursor];
    r := AppendPage(reading, page);
    if CanBeRead(host, key) {
      ghost var whole :| IsWhole(host, key, whole);
      WholePagesFit(host, key, reading, walk, whole);
    }
    if r.Ok? {
      FitsNext(reading, page);
      if page.hasNext {
        ReadingGoesOn(host, key, reading, walk, page);
      } else {
        ReadingEnds(host, key, reading, walk, page);
      }
    }
  }

  lemma FitsNext(reading: Reading, page: Connection)
    requires PageFits(reading, page)
    ensures page.hasNext ==> page.endCursor.Some?
  {
  }

  lemma ReadingParts(host: Host, key: string, reading: Reading, walk: seq<Option<string>>)
    requires IsReading(host, key, reading, walk)
    ensures ReadingIsSound(reading) && walk != []
  {
  }

  lemma {:induction false} DistinctWithin(items: seq<string>, all: set<string>)
    requires Distinct(items) && forall item :: item in items ==> item in all
    ensures |items| <= |all|
  {
    if items != [] {
      var last := items[|items| - 1];
      DistinctWithin(items[..|items| - 1], all - {last});
    }
  }

  /** A walk without repeated cursors is no longer than there are cursors. */
  lemma WalkIsShort(host: Host, key: string, walk: seq<Option<string>>)
    requires HostIsFinite(host) && IsWalk(host, key, walk) && Distinct(walk)
    ensures |walk| <= |host.cursors| + 1
  {
    forall i | 1 <= i < |walk| ensures walk[i].Some? && walk[i].value in host.cursors {
      assert LeadsTo(host, key, walk[i - 1], walk[i]);
    }
    var items := seq(|walk| - 1, i requires 0 <= i < |walk| - 1 => walk[i + 1].value);
    DistinctWithin(items, host.cursors);
  }

  /** A connection waits, or is done. */
  ghost predicate StillWaits(
    host: Host, readings: map<string, Reading>, cursors: map<string, Option<string>>,
    walks: map<string, seq<Option<string>>>, key: string, round: nat) {
    key in readings && key in walks
    && KeyIsReading(host, key, readings[key], if key in cursors then Some(cursors[key]) else None, walks[key], round)
  }

  /** In the middle of a round: the keys in `rest` are to be read, those before them have been. */
  ghost predicate MidRound(
    host: Host, readings: map<string, Reading>, cursors: map<string, Option<string>>, next: map<string, Option<string>>,
    walks: map<string, seq<Option<string>>>, rest: set<string>, keys: set<string>, round: nat) {
    && readings.Keys == keys == walks.Keys && rest <= cursors.Keys <= keys && next.Keys <= cursors.Keys - rest
    && forall key :: key in keys ==>
         if key in rest then StillWaits(host, readings, cursors, walks, key, round)
         else StillWaits(host, readings, next, walks, key, round + 1)
  }

  lemma KeyWaits(
    host: Host, readings: map<string, Reading>, cursors: map<string, Option<string>>, next: map<string, Option<string>>,
    walks: map<string, seq<Option<string>>>, rest: set<string>, keys: set<string>, round: nat, key: string)
    requires MidRound(host, readings, cursors, next, walks, rest, keys, round) && key in rest
    ensures key in readings && key in cursors && key in walks
    ensures IsReading(host, key, readings[key], walks[key]) && walks[key] != []
    ensures cursors[key] == walks[key][|walks[key]| - 1] && |walks[key]| == round + 1
  {
  }

  lemma KeyWasRead(
    host: Host, readings: map<string, Reading>, cursors: map<string, Option<string>>, next: map<string, Option<string>>,
    walks: map<string, seq<Option<string>>>, rest: set<string>, keys: set<string>, round: nat,
    key: string, page: (Reading, Option<string>), walk: seq<Option<string>>)
    requires MidRound(host, readings, cursors, next, walks, rest, keys, round) && key in rest
    requires page.1.Some? ==> IsReading(host, key, page.0, walk) && |walk| == round + 2 && walk[round + 1] == page.1
    requires page.1.None? ==> IsRead(host, key, page.0.nodes)
    ensures MidRound(host, readings[key := page.0], cursors, if page.1.Some? then next[key := page.1] else next,
      walks[key := walk], rest - {key}, keys, round)
  {
    hide IsReading, IsRead;
    var after := if page.1.Some? then next[key := page.1] else next;
    forall other | other in keys
      ensures if other in rest - {key}
        then StillWaits(host, readings[key := page.0], cursors, walks[key := walk], other, round)
        else StillWaits(host, readings[key := page.0], after, walks[key := walk], other, round + 1)
    {
      if other != key {
        assert if other in rest then StillWaits(host, readings, cursors, walks, other, round)
          else StillWaits(host, readings, next, walks, other, round + 1);
      }
    }
  }

  /** One request for the next page of every key that still has one. */
  method ReadRound(host: Host, readings: map<string, Reading>, cursors: map<string, Option<string>>,
                   ghost walks: map<string, seq<Option<string>>>, ghost round: nat)
    returns (r: Result<(map<string, Reading>, map<string, Option<string>>)>, ghost after: map<string, seq<Option<string>>>)
    requires MidRound(host, readings, cursors, map[], walks, cursors.Keys, readings.Keys, round)
    ensures (forall key :: key in readings ==> CanBeRead(host, key)) ==> r.Ok?
    ensures r.Ok? ==> MidRound(host, r.value.0, r.value.1, map[], after, r.value.1.Keys, readings.Keys, round + 1)
  {
    hide MidRound, IsReading, IsRead, CanBeRead;
    var current, next := readings, map[];
    var rest := cursors.Keys;
    after := walks;
    MidParts(host, readings, cursors, map[], walks, rest, readings.Keys, round);
    while rest != {}
      invariant MidRound(host, current, cursors, next, after, rest, readings.Keys, round)
      invariant rest <= readings.Keys
      decreases |rest|
    {
      var key :| key in rest;
      KeyWaits(host, current, cursors, next, after, rest, readings.Keys, round, key);
      var page, walk := ReadPage(host, key, current[key], cursors[key], after[key]);
      if page.Failure? {
        return Failure(page.reason), after;
      }
      KeyWasRead(host, current, cursors, next, after, rest, readings.Keys, round, key, page.value, walk);
      current := current[key := page.value.0];
      if page.value.1.Some? {
        next := next[key := page.value.1];
      }
      after := after[key := walk];
      rest := rest - {key};
    }
    NextRound(host, current, cursors, next, after, readings.Keys, round);
    r := Ok((current, next));
  }

  lemma MidParts(
    host: Host, readings: map<string, Reading>, cursors: map<string, Option<string>>, next: map<string, Option<string>>,
    walks: map<string, seq<Option<string>>>, rest: set<string>, keys: set<string>, round: nat)
    requires MidRound(host, readings, cursors, next, walks, rest, keys, round)
    ensures rest <= keys && readings.Keys == keys
  {
  }

  /** The round is over when no key is left; the next one begins. */
  lemma NextRound(
    host: Host, readings: map<string, Reading>, cursors: map<string, Option<string>>, next: map<string, Option<string>>,
    walks: map<string, seq<Option<string>>>, keys: set<string>, round: nat)
    requires MidRound(host, readings, cursors, next, walks, {}, keys, round)
    ensures MidRound(host, readings, next, map[], walks, next.Keys, keys, round + 1)
  {
  }

  lemma RoundsAreFew(
    host: Host, readings: map<string, Reading>, cursors: map<string, Option<string>>,
    walks: map<string, seq<Option<string>>>, keys: set<string>, round: nat)
    requires HostIsFinite(host) && MidRound(host, readings, cursors, map[], walks, cursors.Keys, keys, round)
    requires cursors.Keys != {}
    ensures round <= |host.cursors|
  {
    hide MidRound;
    var key :| key in cursors;
    KeyWaits(host, readings, cursors, map[], walks, cursors.Keys, keys, round, key);
    ReadingWalk(host, key, readings[key], walks[key]);
    WalkIsShort(host, key, walks[key]);
  }

  lemma ReadingWalk(host: Host, key: string, reading: Reading, walk: seq<Option<string>>)
    requires IsReading(host, key, reading, walk)
    ensures IsWalk(host, key, walk) && Distinct(walk)
  {
  }

  lemma RoundsStart(host: Host, keys: set<string>)
    ensures MidRound(host, map key | key in keys :: Reading(None, [], {}, {}), map key | key in keys :: None, map[],
      map key | key in keys :: [None], keys, keys, 0)
  {
  }

  lemma RoundsEnd(
    host: Host, readings: map<string, Reading>, cursors: map<string, Option<string>>,
    walks: map<string, seq<Option<string>>>, keys: set<string>, round: nat)
    requires MidRound(host, readings, cursors, map[], walks, cursors.Keys, keys, round) && cursors.Keys == {}
    ensures readings.Keys == keys && forall key :: key in keys ==> IsRead(host, key, readings[key].nodes)
  {
  }

  /** The paging loops: they end, they succeed exactly when every connection can be read, and then they return
  all of each connection. */
  method ReadConnections(host: Host, keys: set<string>) returns (r: Result<map<string, seq<Node>>>)
    requires HostIsFinite(host)
    ensures r.Ok? <==> forall key :: key in keys ==> CanBeRead(host, key)
    ensures r.Ok? ==> r.value.Keys == keys && forall key :: key in keys ==> IsRead(host, key, r.value[key])
  {
    hide MidRound, IsRead, CanBeRead, HostIsFinite;
    var readings: map<string, Reading> := map key | key in keys :: Reading(None, [], {}, {});
    var cursors: map<string, Option<string>> := map key | key in keys :: None;
    ghost var walks: map<string, seq<Option<string>>> := map key | key in keys :: [None];
    ghost var round: nat := 0;
    RoundsStart(host, keys);
    assert cursors.Keys == keys && readings.Keys == keys;
    while cursors.Keys != {}
      invariant MidRound(host, readings, cursors, map[], walks, cursors.Keys, keys, round) && readings.Keys == keys
      invariant round <= |host.cursors| + 1
      decreases |host.cursors| + 1 - round
    {
      RoundsAreFew(host, readings, cursors, walks, keys, round);
      var pages, after := ReadRound(host, readings, cursors, walks, round);
      if pages.Failure? {
        return Failure(pages.reason);
      }
      readings, cursors, walks, round := pages.value.0, pages.value.1, after, round + 1;
      MidParts(host, readings, cursors, map[], walks, cursors.Keys, keys, round);
    }
    RoundsEnd(host, readings, cursors, walks, keys, round);
    forall key | key in keys ensures CanBeRead(host, key) {
      ReadCanBeRead(host, key, readings[key].nodes);
    }
    r := Ok(map key | key in keys :: readings[key].nodes);
  }

  lemma ReadCanBeRead(host: Host, key: string, nodes: seq<Node>)
    requires IsRead(host, key, nodes)
    ensures CanBeRead(host, key)
  {
  }

  /** A connection is read in one way only. */
  lemma ReadIsUnique(host: Host, key: string, a: seq<Node>, b: seq<Node>)
    requires IsRead(host, key, a) && IsRead(host, key, b)
    ensures a == b
  {
    hide IsWhole, Collected;
    var x :| IsWhole(host, key, x) && a == Collected(host, key, x);
    var y :| IsWhole(host, key, y) && b == Collected(host, key, y);
    WholeIsWalk(host, key, x);
    WholeIsWalk(host, key, y);
    WalkIsPrefix(host, key, x, y);
    WalkIsPrefix(host, key, y, x);
    assert x == y;
  }

  lemma WholeIsWalk(host: Host, key: string, walk: seq<Option<string>>)
    requires IsWhole(host, key, walk)
    ensures IsWalk(host, key, walk)
  {
  }
}
