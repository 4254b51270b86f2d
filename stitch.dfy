// The OSM way-stitching of parse_osm.js (lines 6-58): the node map built from the
// input elements, and the loop that joins the ordered ways into one path of
// distinct nodes, reversing a way whose last node is the current end of the path.
// Reading the JSON file and printing the result are not part of this model.
module OsmStitch {
  import opened Common
  import opened Geometry

  /** An element of the OSM response: a node, a way, or anything else. */
  datatype Element = NodeElement(id: int, lat: real, lon: real) | WayElement(id: int, nodes: seq<int>) | OtherElement(id: int)

  datatype Way = Way(id: int, nodes: seq<int>)

  /** An entry of the output path: the node id and, when the node map has it, its position. */
  datatype PathNode = PathNode(id: int, coords: Option<Coord>)

  /** The ways of the ferry route, from Temple Quay to The Cottage. */
  const OrderedWayIds: seq<int> := [1409467466, 37034144, 36992083, 1409467467, 26199120, 26199027]

  // ---------------------------------------------------------------------------
  // The node map and the ways
  // ---------------------------------------------------------------------------

  /** The node map: every node element's position under its id; a later element with the same id wins. */
  function NodeMap(elements: seq<Element>): (m: map<int, Coord>)
    ensures m.Keys == set k | 0 <= k < |elements| && elements[k].NodeElement? :: elements[k].id
  {
    if elements == [] then map[]
    else
      var n := |elements| - 1;
      var init := elements[..n];
      assert forall k :: 0 <= k < n ==> init[k] == elements[k];
      var e := elements[n];
      if e.NodeElement? then
        assert (set k | 0 <= k < |elements| && elements[k].NodeElement? :: elements[k].id)
          == (set k | 0 <= k < n && init[k].NodeElement? :: init[k].id) + {e.id};
        NodeMap(init)[e.id := Coord(e.lat, e.lon)]
      else
        assert (set k | 0 <= k < |elements| && elements[k].NodeElement? :: elements[k].id)
          == (set k | 0 <= k < n && init[k].NodeElement? :: init[k].id);
        NodeMap(init)
  }

  /** The node map holds, under each id, the position of the last node element with that id. */
  lemma {:induction false} NodeMapLastWins(elements: seq<Element>, k: int)
    requires 0 <= k < |elements| && elements[k].NodeElement?
    requires forall j :: k < j < |elements| && elements[j].NodeElement? ==> elements[j].id != elements[k].id
    ensures NodeMap(elements)[elements[k].id] == Coord(elements[k].lat, elements[k].lon)
  {
    var n := |elements| - 1;
    if k < n {
      var init := elements[..n];
      assert init[k] == elements[k];
      NodeMapLastWins(init, k);
    }
  }

  /** The forEach that fills the node map. */
  method BuildNodeMap(elements: seq<Element>) returns (nodes: map<int, Coord>)
    ensures nodes == NodeMap(elements)
  {
    nodes := map[];
    for i := 0 to |elements|
      invariant nodes == NodeMap(elements[..i])
    {
      assert elements[..i + 1][..i] == elements[..i];
      var el := elements[i];
      if el.NodeElement? {
        nodes := nodes[el.id := Coord(el.lat, el.lon)];
      }
    }
    assert elements[..|elements|] == elements;
  }

  /** The way elements, in input order. */
  function Ways(elements: seq<Element>): (ws: seq<Way>)
    ensures forall i :: 0 <= i < |ws| ==> WayElement(ws[i].id, ws[i].nodes) in elements
    ensures forall k :: 0 <= k < |elements| && elements[k].WayElement? ==> Way(elements[k].id, elements[k].nodes) in ws
  {
    if elements == [] then []
    else
      var n := |elements| - 1;
      var init := elements[..n];
      assert forall k :: 0 <= k < n ==> init[k] == elements[k];
      var e := elements[n];
      if e.WayElement? then Ways(init) + [Way(e.id, e.nodes)] else Ways(init)
  }

  /** filter keeps input order: the ways of a concatenation are the ways of the
      first part followed by those of the second. */
  lemma {:induction false} WaysAppend(a: seq<Element>, b: seq<Element>)
    ensures Ways(a + b) == Ways(a) + Ways(b)
    decreases |b|
  {
    if b == [] {
      assert a + b == a;
    } else {
      var n := |b| - 1;
      WaysAppend(a, b[..n]);
      assert (a + b)[..|a + b| - 1] == a + b[..n];
      assert (a + b)[|a + b| - 1] == b[n];
    }
  }

  /** ways.find(w => w.id === wid) on the filtered ways finds the first way element
      with that id; it finds none exactly when no way element has it. */
  lemma WaysFindFirst(elements: seq<Element>, k: int)
    requires 0 <= k < |elements| && elements[k].WayElement?
    requires forall j :: 0 <= j < k && elements[j].WayElement? ==> elements[j].id != elements[k].id
    ensures var ws := Ways(elements); var r := FindWay(ws, elements[k].id);
      r.Some? && ws[r.value] == Way(elements[k].id, elements[k].nodes)
  {
    var e := elements[k];
    var pre := elements[..k];
    WaysAround(elements, k);
    var before := Ways(pre);
    var ws := Ways(elements);
    var m := |before|;
    forall j | 0 <= j < m
      ensures ws[j].id != e.id
    {
      assert ws[j] == before[j];
      assert WayElement(before[j].id, before[j].nodes) in pre;
      var i :| 0 <= i < k && pre[i] == WayElement(before[j].id, before[j].nodes);
      assert elements[i] == pre[i];
    }
    FindWayAt(ws, m, e.id);
  }

  /** The ways of elements split around the way element at k. */
  lemma WaysAround(elements: seq<Element>, k: int)
    requires 0 <= k < |elements| && elements[k].WayElement?
    ensures Ways(elements) == Ways(elements[..k]) + [Way(elements[k].id, elements[k].nodes)] + Ways(elements[k + 1..])
  {
    var e := elements[k];
    var pre, post := elements[..k], elements[k + 1..];
    assert elements == pre + [e] + post;
    WaysAppend(pre + [e], post);
    WaysAppend(pre, [e]);
    assert [e][..0] == [];
    assert Ways([e]) == [Way(e.id, e.nodes)];
  }

  /** find stops at the first way with the id. */
  lemma FindWayAt(ws: seq<Way>, m: int, wid: int)
    requires 0 <= m < |ws| && ws[m].id == wid
    requires forall j :: 0 <= j < m ==> ws[j].id != wid
    ensures FindWay(ws, wid) == Some(m)
  {
    var r := FindWay(ws, wid);
    if r.Some? {
      assert r.value <= m;
    }
  }

  /** ways.find comes back empty exactly when no way element has the id. */
  lemma WaysFindNone(elements: seq<Element>, wid: int)
    ensures FindWay(Ways(elements), wid).None? <==> forall k :: 0 <= k < |elements| && elements[k].WayElement? ==> elements[k].id != wid
  {
    var ws := Ways(elements);
    if FindWay(ws, wid).Some? {
      assert WayElement(wid, ws[FindWay(ws, wid).value].nodes) in elements;
    }
  }

  /** ways.find by id: the index of the first way with that id, if any. */
  function FindWay(ways: seq<Way>, wid: int): (r: Option<nat>)
    ensures r.Some? ==> r.value < |ways| && ways[r.value].id == wid && forall j :: 0 <= j < r.value ==> ways[j].id != wid
    ensures r.None? ==> forall j :: 0 <= j < |ways| ==> ways[j].id != wid
  {
    if |ways| == 0 then None
    else if ways[0].id == wid then Some(0)
    else
      match FindWay(ways[1..], wid)
      case None => None
      case Some(k) => Some(k + 1)
  }

  /** nodes[nid]: the position of a node, undefined when the map lacks it. */
  function Lookup(nodes: map<int, Coord>, nid: int): Option<Coord>
  {
    if nid in nodes then Some(nodes[nid]) else None
  }

  // ---------------------------------------------------------------------------
  // The stitching loop as functions
  // ---------------------------------------------------------------------------

  /** fullPath and seenNodes. */
  datatype State = State(path: seq<PathNode>, seen: set<int>)

  /** The way's nodes in the order they are appended: reversed when the path is
      non-empty and the way ends at the path's last node. */
  function Orient(nodesInWay: seq<int>, path: seq<PathNode>): seq<int>
  {
    if |path| > 0 && |nodesInWay| > 0 && nodesInWay[|nodesInWay| - 1] == path[|path| - 1].id then Reverse(nodesInWay)
    else nodesInWay
  }

  /** The inner loop: each node id not seen yet is appended with its position and marked seen. */
  function AppendUnseen(st: State, nids: seq<int>, nodes: map<int, Coord>): State
  {
    if nids == [] then st
    else
      var n := |nids| - 1;
      var prev := AppendUnseen(st, nids[..n], nodes);
      var nid := nids[n];
      if nid in prev.seen then prev
      else State(prev.path + [PathNode(nid, Lookup(nodes, nid))], prev.seen + {nid})
  }

  /** One iteration of the outer loop: a missing way is skipped. */
  function StitchStep(st: State, ways: seq<Way>, nodes: map<int, Coord>, wid: int): State
  {
    match FindWay(ways, wid)
    case None => st
    case Some(k) => AppendUnseen(st, Orient(ways[k].nodes, st.path), nodes)
  }

  /** The state after the outer loop has processed the way ids wids, in order. */
  function Stitch(ways: seq<Way>, nodes: map<int, Coord>, wids: seq<int>): State
  {
    if wids == [] then State([], {})
    else
      var n := |wids| - 1;
      StitchStep(Stitch(ways, nodes, wids[..n]), ways, nodes, wids[n])
  }

  // ---------------------------------------------------------------------------
  // The loop itself
  // ---------------------------------------------------------------------------

  /** The loop of parse_osm.js over orderedWayIds, building fullPath. */
  method StitchPath(ways: seq<Way>, nodes: map<int, Coord>, orderedWayIds: seq<int>) returns (fullPath: seq<PathNode>)
    ensures fullPath == Stitch(ways, nodes, orderedWayIds).path
  {
    fullPath := [];
    var seenNodes: set<int> := {};
    for t := 0 to |orderedWayIds|
      invariant State(fullPath, seenNodes) == Stitch(ways, nodes, orderedWayIds[..t])
    {
      assert orderedWayIds[..t + 1][..t] == orderedWayIds[..t];
      var wid := orderedWayIds[t];
      var found := FindWay(ways, wid);
      if found.None? {
        continue;
      }
      var way := ways[found.value];
      var nodesInWay := way.nodes;
      if |fullPath| > 0 {
        var lastNodeId := fullPath[|fullPath| - 1].id;
        if |nodesInWay| > 0 && nodesInWay[|nodesInWay| - 1] == lastNodeId {
          nodesInWay := ReversedCopy(nodesInWay);
        }
      }
      assert nodesInWay == Orient(way.nodes, fullPath);
      fullPath, seenNodes := PushUnseen(fullPath, seenNodes, nodesInWay, nodes);
    }
    assert orderedWayIds[..|orderedWayIds|] == orderedWayIds;
  }

  /** [...nodesInWay].reverse(): a reversed copy. */
  method ReversedCopy(nodesInWay: seq<int>) returns (r: seq<int>)
    ensures r == Reverse(nodesInWay)
  {
    var copy := new int[|nodesInWay|](k requires 0 <= k < |nodesInWay| => nodesInWay[k]);
    assert copy[..] == nodesInWay;
    ReverseInPlace(copy);
    r := copy[..];
  }

  /** The inner loop over one way's nodes: each id not seen yet is pushed with its
      position and added to the seen set. */
  method PushUnseen(path: seq<PathNode>, seen: set<int>, nodesInWay: seq<int>, nodes: map<int, Coord>) returns (fullPath: seq<PathNode>, seenNodes: set<int>)
    ensures State(fullPath, seenNodes) == AppendUnseen(State(path, seen), nodesInWay, nodes)
  {
    fullPath, seenNodes := path, seen;
    for j := 0 to |nodesInWay|
      invariant State(fullPath, seenNodes) == AppendUnseen(State(path, seen), nodesInWay[..j], nodes)
    {
      assert nodesInWay[..j + 1][..j] == nodesInWay[..j];
      var nid := nodesInWay[j];
      if nid !in seenNodes {
        var coord := Lookup(nodes, nid);
        fullPath := fullPath + [PathNode(nid, coord)];
        seenNodes := seenNodes + {nid};
      }
    }
    assert nodesInWay[..|nodesInWay|] == nodesInWay;
  }

  /** parse_osm.js between reading the file and printing: node map, ways, stitching. */
  method ParseOsm(elements: seq<Element>) returns (fullPath: seq<PathNode>)
    ensures fullPath == Stitch(Ways(elements), NodeMap(elements), OrderedWayIds).path
  {
    var nodes := BuildNodeMap(elements);
    var ways := Ways(elements);
    fullPath := StitchPath(ways, nodes, OrderedWayIds);
  }

  // ---------------------------------------------------------------------------
  // What the stitching promises
  // ---------------------------------------------------------------------------

  /** The node ids of a path. */
  function Ids(path: seq<PathNode>): set<int>
  {
    set k | 0 <= k < |path| :: path[k].id
  }

  predicate NoDuplicateIds(path: seq<PathNode>)
  {
    forall i, j :: 0 <= i < j < |path| ==> path[i].id != path[j].id
  }

  /** The loop's invariant: no node twice, seenNodes is exactly the ids on the
      path, and every entry carries the node map's position for its id. */
  predicate Consistent(st: State, nodes: map<int, Coord>)
  {
    && NoDuplicateIds(st.path)
    && st.seen == Ids(st.path)
    && forall k :: 0 <= k < |st.path| ==> st.path[k].coords == Lookup(nodes, st.path[k].id)
  }

  /** The elements of a sequence, as a set. */
  function Elements(s: seq<int>): set<int>
  {
    set x | x in s
  }

  /** The entries a way's node ids nids contribute when the ids in seen are on the
      path already: each id not in seen, at its first occurrence in nids, in the
      order of nids, with its position. */
  function Unseen(seen: set<int>, nids: seq<int>, nodes: map<int, Coord>): seq<PathNode>
    decreases |nids|
  {
    if nids == [] then []
    else if nids[0] in seen then Unseen(seen, nids[1..], nodes)
    else [PathNode(nids[0], Lookup(nodes, nids[0]))] + Unseen(seen + {nids[0]}, nids[1..], nodes)
  }

  /** One more id at the end of nids adds its entry at the end, unless it was seen
      before or occurs earlier in nids. */
  lemma {:induction false} UnseenSnoc(seen: set<int>, nids: seq<int>, nid: int, nodes: map<int, Coord>)
    ensures Unseen(seen, nids + [nid], nodes)
      == Unseen(seen, nids, nodes) + (if nid in seen + Elements(nids) then [] else [PathNode(nid, Lookup(nodes, nid))])
    decreases |nids|
  {
    if nids == [] {
      assert [nid][1..] == [];
    } else {
      var h, t := nids[0], nids[1..];
      assert (nids + [nid])[0] == h && (nids + [nid])[1..] == t + [nid];
      assert Elements(nids) == {h} + Elements(t) by {
        assert nids == [h] + t;
      }
      if h in seen {
        UnseenSnoc(seen, t, nid, nodes);
      } else {
        UnseenSnoc(seen + {h}, t, nid, nodes);
      }
    }
  }

  /** The inner loop keeps the invariant and appends exactly Unseen(seen, nids): the
      way's new ids in the order the way lists them. Afterwards the path's ids are
      the old ids plus the way's ids. */
  lemma {:induction false} AppendUnseenSpec(st: State, nids: seq<int>, nodes: map<int, Coord>)
    requires Consistent(st, nodes)
    ensures var r := AppendUnseen(st, nids, nodes);
      && Consistent(r, nodes)
      && r.path == st.path + Unseen(st.seen, nids, nodes)
      && Ids(r.path) == Ids(st.path) + Elements(nids)
    decreases |nids|
  {
    if nids != [] {
      var n := |nids| - 1;
      var init := nids[..n];
      AppendUnseenSpec(st, init, nodes);
      var prev := AppendUnseen(st, init, nodes);
      var nid := nids[n];
      assert nids == init + [nid];
      assert Elements(nids) == Elements(init) + {nid};
      UnseenSnoc(st.seen, init, nid, nodes);
      assert nid in prev.seen <==> nid in st.seen + Elements(init);
      if nid !in prev.seen {
        PushKeepsConsistent(prev, nid, nodes);
      }
    }
  }

  /** Pushing an id not yet seen, with its position, keeps the loop's invariant
      and adds exactly that id to the path's ids. */
  lemma PushKeepsConsistent(prev: State, nid: int, nodes: map<int, Coord>)
    requires Consistent(prev, nodes) && nid !in prev.seen
    ensures var path := prev.path + [PathNode(nid, Lookup(nodes, nid))];
      && Consistent(State(path, prev.seen + {nid}), nodes)
      && Ids(path) == Ids(prev.path) + {nid}
  {
    var path := prev.path + [PathNode(nid, Lookup(nodes, nid))];
    assert Ids(path) == Ids(prev.path) + {nid} by {
      assert forall k :: 0 <= k < |prev.path| ==> path[k] == prev.path[k];
      forall x | x in Ids(prev.path) ensures x in Ids(path) {
        var k :| 0 <= k < |prev.path| && prev.path[k].id == x;
        assert path[k].id == x;
      }
      assert path[|prev.path|].id == nid;
    }
    assert NoDuplicateIds(path) by {
      forall i, j | 0 <= i < j < |path| ensures path[i].id != path[j].id {
        if j == |prev.path| {
          assert path[i].id in Ids(prev.path);
        }
      }
    }
  }

  /** Reversal keeps the elements. */
  lemma ReverseElements(s: seq<int>)
    ensures Elements(Reverse(s)) == Elements(s)
  {
    var r := Reverse(s);
    forall x | x in s ensures x in r {
      var k :| 0 <= k < |s| && s[k] == x;
      assert r[|s| - 1 - k] == x;
    }
    forall x | x in r ensures x in s {
      var k :| 0 <= k < |r| && r[k] == x;
      assert s[|s| - 1 - k] == x;
    }
  }

  /** A way is reversed only to join the path: then its traversal begins at the
      node the path ends with. It is never reversed onto an empty path, and
      orienting it keeps its nodes. */
  lemma OrientJoins(nodesInWay: seq<int>, path: seq<PathNode>)
    ensures var r := Orient(nodesInWay, path);
      && (r != nodesInWay ==> |path| > 0 && r == Reverse(nodesInWay) && r[0] == path[|path| - 1].id)
      && (|path| == 0 ==> r == nodesInWay)
      && Elements(r) == Elements(nodesInWay)
  {
    ReverseElements(nodesInWay);
  }

  /** The node ids of the ways found among wids. */
  function Covered(ways: seq<Way>, wids: seq<int>): set<int>
  {
    if wids == [] then {}
    else
      var n := |wids| - 1;
      Covered(ways, wids[..n]) + match FindWay(ways, wids[n]) case None => {} case Some(k) => Elements(ways[k].nodes)
  }

  /** After any number of ways: the invariant holds, the path holds exactly the
      node ids of the ways that were found, and the last way found appends its
      ids not on the path yet, in its oriented order. */
  lemma {:induction false} StitchSpec(ways: seq<Way>, nodes: map<int, Coord>, wids: seq<int>)
    ensures Consistent(Stitch(ways, nodes, wids), nodes)
    ensures Ids(Stitch(ways, nodes, wids).path) == Covered(ways, wids)
    ensures wids != [] ==>
      var prev := Stitch(ways, nodes, wids[..|wids| - 1]).path;
      Stitch(ways, nodes, wids).path
        == prev + match FindWay(ways, wids[|wids| - 1])
                  case None => []
                  case Some(k) => Unseen(Ids(prev), Orient(ways[k].nodes, prev), nodes)
    decreases |wids|
  {
    if wids != [] {
      var n := |wids| - 1;
      StitchSpec(ways, nodes, wids[..n]);
      var st := Stitch(ways, nodes, wids[..n]);
      match FindWay(ways, wids[n])
      case None =>
      case Some(k) =>
        AppendUnseenSpec(st, Orient(ways[k].nodes, st.path), nodes);
        OrientJoins(ways[k].nodes, st.path);
    }
  }

  /** The path only grows: the path after the first k ways is a prefix of the final one. */
  lemma {:induction false} StitchGrows(ways: seq<Way>, nodes: map<int, Coord>, wids: seq<int>, k: int)
    requires 0 <= k <= |wids|
    ensures Stitch(ways, nodes, wids[..k]).path <= Stitch(ways, nodes, wids).path
    decreases |wids|
  {
    if k < |wids| {
      var n := |wids| - 1;
      assert wids[..n][..k] == wids[..k];
      StitchGrows(ways, nodes, wids[..n], k);
      StitchStepGrows(ways, nodes, wids);
    } else {
      assert wids[..k] == wids;
    }
  }

  /** One more way id only appends to the path. */
  lemma StitchStepGrows(ways: seq<Way>, nodes: map<int, Coord>, wids: seq<int>)
    requires wids != []
    ensures Stitch(ways, nodes, wids[..|wids| - 1]).path <= Stitch(ways, nodes, wids).path
  {
    var n := |wids| - 1;
    var st := Stitch(ways, nodes, wids[..n]);
    StitchSpec(ways, nodes, wids[..n]);
    match FindWay(ways, wids[n])
    case None =>
    case Some(x) =>
      var nids := Orient(ways[x].nodes, st.path);
      AppendUnseenSpec(st, nids, nodes);
      var added := Unseen(st.seen, nids, nodes);
      assert st.path <= st.path + added;
  }

  /** A way id that is not among the ways leaves the path and the seen set as they were. */
  lemma MissingWaySkipped(ways: seq<Way>, nodes: map<int, Coord>, wids: seq<int>, k: int)
    requires 0 <= k < |wids| && forall j :: 0 <= j < |ways| ==> ways[j].id != wids[k]
    ensures Stitch(ways, nodes, wids[..k + 1]) == Stitch(ways, nodes, wids[..k])
  {
    assert wids[..k + 1][..k] == wids[..k];
  }
}
