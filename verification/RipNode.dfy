/**
 A node's routing table as the program updates it: entry by entry, in loops over packets
 and tables.  Each method is proved to be the table-wide function that the network model
 uses, whatever order entries are listed in.
 */
module RipNodes {
  import opened Options
  import opened RipCore

  datatype Entry = Entry(prefix: Prefix, wire: nat)

  datatype WirePacket = WireRequest | WireResponse(entries: seq<Entry>)

  ghost predicate Distinct(entries: seq<Entry>) {
    forall i, j :: 0 <= i < j < |entries| ==> entries[i].prefix != entries[j].prefix
  }

  /** The list names exactly the entries of the map, each once. */
  ghost predicate Lists(entries: seq<Entry>, m: map<Prefix, nat>) {
    && Distinct(entries)
    && (forall e :: e in entries ==> e.prefix in m && m[e.prefix] == e.wire)
    && (forall p :: p in m ==> Entry(p, m[p]) in entries)
  }

  ghost predicate Encodes(w: WirePacket, pkt: Packet) {
    match w
    case WireRequest => pkt == Request
    case WireResponse(entries) => pkt.Response? && Lists(entries, pkt.entries)
  }

  /** The slot of p and its triggered record after the listed entries are handled one after another. */
  ghost function Fold(slot: Option<Route>, hop: Addr, entries: seq<Entry>, p: Prefix): (r: Reaction)
    decreases |entries|
  {
    if entries == [] then Reaction(slot, None) else
      var e := entries[|entries| - 1];
      var before := Fold(slot, hop, entries[..|entries| - 1], p);
      if e.prefix != p then before else
        var r := React(before.table, hop, e.wire);
        Reaction(r.table, if r.triggered.Some? then r.triggered else before.triggered)
  }

  lemma {:induction false} FoldAbsent(slot: Option<Route>, hop: Addr, entries: seq<Entry>, p: Prefix)
    requires forall e :: e in entries ==> e.prefix != p
    ensures Fold(slot, hop, entries, p) == Reaction(slot, None)
    decreases |entries|
  {
    if entries != [] {
      assert entries[|entries| - 1] in entries;
      FoldAbsent(slot, hop, entries[..|entries| - 1], p);
    }
  }

  /** In a list without repeated prefixes an entry is handled as if it were alone. */
  lemma {:induction false} FoldAlone(slot: Option<Route>, hop: Addr, entries: seq<Entry>, p: Prefix, i: nat)
    requires Distinct(entries) && i < |entries| && entries[i].prefix == p
    ensures Fold(slot, hop, entries, p) == React(slot, hop, entries[i].wire)
    decreases |entries|
  {
    var n := |entries| - 1;
    var rest := entries[..n];
    if i == n {
      forall e | e in rest ensures e.prefix != p {
        var j :| 0 <= j < |rest| && rest[j] == e;
        assert entries[j].prefix != entries[n].prefix;
      }
      FoldAbsent(slot, hop, rest, p);
    } else {
      assert entries[i].prefix != entries[n].prefix;
      FoldAlone(slot, hop, rest, p, i);
    }
  }

  /** A listed packet is handled as the network model handles it. */
  lemma FoldIsHandle(t: map<Prefix, Route>, hop: Addr, entries: seq<Entry>, m: map<Prefix, nat>, p: Prefix)
    requires Lists(entries, m)
    ensures Fold(Lookup(t, p), hop, entries, p).table == Lookup(HandleTable(t, hop, m), p)
    ensures Fold(Lookup(t, p), hop, entries, p).triggered == Lookup(HandleTriggered(t, hop, m), p)
  {
    if p in m {
      var i :| 0 <= i < |entries| && entries[i] == Entry(p, m[p]);
      FoldAlone(Lookup(t, p), hop, entries, p, i);
    } else {
      FoldAbsent(Lookup(t, p), hop, entries, p);
    }
  }

  lemma SameLookups(a: map<Prefix, Route>, b: map<Prefix, Route>)
    requires forall p :: Lookup(a, p) == Lookup(b, p)
    ensures a == b
  {
    forall p ensures p in a <==> p in b {
      assert Lookup(a, p) == Lookup(b, p);
    }
    forall p | p in a ensures a[p] == b[p] {
      assert Lookup(a, p) == Lookup(b, p);
    }
  }

  datatype Interface = Interface(prefix: Prefix, ip: Addr)

  /** The route a node starts with for p: its last interface with that prefix, or else its static route. */
  ghost function StartRoute(statics: map<Prefix, Addr>, interfaces: seq<Interface>, p: Prefix): (r: Option<Route>)
    decreases |interfaces|
  {
    if interfaces == [] then
      if p in statics then Some(Route(Static, statics[p], 0)) else None
    else
      var last := interfaces[|interfaces| - 1];
      if last.prefix == p then Some(Route(Local, last.ip, 0)) else StartRoute(statics, interfaces[..|interfaces| - 1], p)
  }

  /** A node starts with configured routes of cost 0 only, static ones exactly where no interface has the prefix. */
  lemma {:induction false} StartsConfigured(statics: map<Prefix, Addr>, interfaces: seq<Interface>, p: Prefix)
    ensures var r := StartRoute(statics, interfaces, p);
            && (r.Some? ==> r.value.cost == 0 && r.value.kind != Learned)
            && (r.Some? <==> p in statics || exists i :: 0 <= i < |interfaces| && interfaces[i].prefix == p)
            && (r.Some? && r.value.kind == Static <==> p in statics && forall i :: 0 <= i < |interfaces| ==> interfaces[i].prefix != p)
    decreases |interfaces|
  {
    if interfaces != [] {
      var rest := interfaces[..|interfaces| - 1];
      StartsConfigured(statics, rest, p);
      assert forall i :: 0 <= i < |rest| ==> rest[i] == interfaces[i];
    }
  }

  class Node {
    var forwardingTable: map<Prefix, Route>
    const ripNeighbors: seq<Link>

    /** Initialize: static routes first, then interfaces, which replace static routes of the same prefix. */
    constructor (statics: map<Prefix, Addr>, interfaces: seq<Interface>, neighbors: seq<Link>)
      ensures ripNeighbors == neighbors
      ensures forall p :: Lookup(forwardingTable, p) == StartRoute(statics, interfaces, p)
    {
      forwardingTable := map p | p in statics :: Route(Static, statics[p], 0);
      ripNeighbors := neighbors;
      new;
      for i := 0 to |interfaces|
        invariant forall p :: Lookup(forwardingTable, p) == StartRoute(statics, interfaces[..i], p)
      {
        ghost var before := interfaces[..i];
        assert interfaces[..i + 1][..i] == before;
        forwardingTable := forwardingTable[interfaces[i].prefix := Route(Local, interfaces[i].ip, 0)];
      }
      assert interfaces[..|interfaces|] == interfaces;
    }

    /** The requests sent at start-up: one to each RIP neighbour. */
    method StartRequests() returns (out: seq<Flight<WirePacket>>)
      ensures |out| == |ripNeighbors|
      ensures forall k :: 0 <= k < |out| ==> out[k] == Flight(ripNeighbors[k], WireRequest)
    {
      out := [];
      for i := 0 to |ripNeighbors|
        invariant |out| == i && forall k :: 0 <= k < i ==> out[k] == Flight(ripNeighbors[k], WireRequest)
      {
        out := out + [Flight(ripNeighbors[i], WireRequest)];
      }
    }

    /** One entry of a response; `triggered` collects the records to announce. */
    method HandleEntry(hop: Addr, e: Entry, triggered: map<Prefix, Route>) returns (triggered': map<Prefix, Route>)
      modifies this
      ensures forall p :: p != e.prefix ==> Lookup(forwardingTable, p) == old(Lookup(forwardingTable, p)) && Lookup(triggered', p) == Lookup(triggered, p)
      ensures var r := React(old(Lookup(forwardingTable, e.prefix)), hop, e.wire);
              && Lookup(forwardingTable, e.prefix) == r.table
              && Lookup(triggered', e.prefix) == (if r.triggered.Some? then r.triggered else Lookup(triggered, e.prefix))
    {
      triggered' := triggered;
      var pre := e.prefix;
      var plus := (e.wire + 1) % UINT32;
      var cost := if plus < INFTY then plus else INFTY;
      if pre !in forwardingTable {
        if cost != INFTY {
          var val := Route(Learned, hop, cost);
          forwardingTable := forwardingTable[pre := val];
          triggered' := triggered'[pre := val];
        }
      } else {
        var info := forwardingTable[pre];
        if info.cost > cost {
          info := info.(cost := cost, next := hop);
          forwardingTable := forwardingTable[pre := info];
          triggered' := triggered'[pre := info];
        } else if info.cost < cost {
          if hop == info.next {
            triggered' := triggered'[pre := info.(cost := cost)];
            forwardingTable := forwardingTable - {pre};
          }
        } else if hop == info.next {
          triggered' := triggered'[pre := info];
        }
      }
    }

    /** The response branch of protocol200. */
    method HandleResponse(hop: Addr, entries: seq<Entry>) returns (triggered: map<Prefix, Route>)
      modifies this
      ensures forall p :: Fold(old(Lookup(forwardingTable, p)), hop, entries, p) ==
                          Reaction(Lookup(forwardingTable, p), Lookup(triggered, p))
    {
      triggered := map[];
      for i := 0 to |entries|
        invariant forall p :: Fold(old(Lookup(forwardingTable, p)), hop, entries[..i], p) ==
                              Reaction(Lookup(forwardingTable, p), Lookup(triggered, p))
      {
        ghost var before := entries[..i];
        assert entries[..i + 1][..i] == before;
        triggered := HandleEntry(hop, entries[i], triggered);
      }
      assert entries[..|entries|] == entries;
    }

    /** sendRIP: the announcement of a set of routes to one neighbour, in any order. */
    method Announcement(dst: Addr, subset: map<Prefix, Route>) returns (entries: seq<Entry>)
      ensures Lists(entries, AnnounceAll(subset, dst))
    {
      entries := [];
      var left := subset.Keys;
      while left != {}
        invariant left <= subset.Keys && Distinct(entries)
        invariant forall e :: e in entries ==> e.prefix in subset && e.prefix !in left && e.wire == Announce(subset[e.prefix], dst)
        invariant forall p :: p in subset && p !in left ==> Entry(p, Announce(subset[p], dst)) in entries
        decreases |left|
      {
        var p :| p in left;
        left := left - {p};
        var info := subset[p];
        var cost := info.cost;
        if dst == info.next {
          cost := INFTY;
        }
        assert forall i :: 0 <= i < |entries| ==> entries[i] in entries;
        entries := entries + [Entry(p, cost)];
      }
    }

    /** The garbage collector: learned routes that went stale are dropped and announced as unreachable. */
    method Collect(stale: set<Prefix>) returns (triggered: map<Prefix, Route>)
      modifies this
      ensures var t, gone := old(forwardingTable), triggered.Keys;
              && (forall p :: p in gone <==> p in t && t[p].kind == Learned && p in stale)
              && forwardingTable == t - gone
              && (forall p :: p in gone ==> triggered[p] == t[p].(cost := INFTY))
    {
      ghost var t := forwardingTable;
      triggered := map[];
      var left := forwardingTable.Keys;
      while left != {}
        invariant left <= t.Keys
        invariant forall p :: p in triggered <==> p in t && t[p].kind == Learned && p in stale && p !in left
        invariant forall p :: p in triggered ==> triggered[p] == t[p].(cost := INFTY)
        invariant forwardingTable == t - triggered.Keys
        decreases |left|
      {
        var p :| p in left;
        left := left - {p};
        var info := forwardingTable[p];
        if info.kind == Learned && p in stale {
          triggered := triggered[p := info.(cost := INFTY)];
          forwardingTable := forwardingTable - {p};
        }
      }
    }

    /** A set of routes announced to every neighbour, or nothing if there is none to announce. */
    method AnnounceToAll(routes: map<Prefix, Route>) returns (out: seq<Flight<WirePacket>>)
      ensures |out| == (if routes == map[] then 0 else |ripNeighbors|)
      ensures forall k :: 0 <= k < |out| ==>
                out[k].link == ripNeighbors[k] && Encodes(out[k].msg, Response(AnnounceAll(routes, ripNeighbors[k].dst)))
    {
      out := [];
      if routes.Keys != {} {
        for i := 0 to |ripNeighbors|
          invariant |out| == i
          invariant forall k :: 0 <= k < i ==>
                      out[k].link == ripNeighbors[k] && Encodes(out[k].msg, Response(AnnounceAll(routes, ripNeighbors[k].dst)))
        {
          var entries := Announcement(ripNeighbors[i].dst, routes);
          out := out + [Flight(ripNeighbors[i], WireResponse(entries))];
        }
      }
    }

    /**
     protocol200 as a whole is the network model's delivery step at this node: the same table
     and the same packets on the same links.
     */
    method Protocol200(ghost net: Net, ghost n: NodeId, ghost pkt: Packet, l: Link, w: WirePacket) returns (out: seq<Flight<WirePacket>>)
      requires n < |net.outs| && ripNeighbors == net.outs[n] && Encodes(w, pkt)
      modifies this
      ensures pkt.Request? ==>
                && forwardingTable == old(forwardingTable)
                && |out| == 1 && out[0].link == Flip(l) && Encodes(out[0].msg, Response(AnnounceAll(forwardingTable, l.src)))
      ensures pkt.Response? ==>
                && forwardingTable == HandleTable(old(forwardingTable), l.src, pkt.entries)
                && var sent := Trigger(net, n, HandleTriggered(old(forwardingTable), l.src, pkt.entries));
                   |out| == |sent| && forall k :: 0 <= k < |out| ==> out[k].link == sent[k].link && Encodes(out[k].msg, sent[k].msg)
    {
      match w {
        case WireRequest =>
          var entries := Announcement(l.src, forwardingTable);
          out := [Flight(Flip(l), WireResponse(entries))];
        case WireResponse(entries) =>
          ghost var t := forwardingTable;
          var triggered := HandleResponse(l.src, entries);
          forall p ensures Lookup(forwardingTable, p) == Lookup(HandleTable(t, l.src, pkt.entries), p)
                        && Lookup(triggered, p) == Lookup(HandleTriggered(t, l.src, pkt.entries), p) {
            FoldIsHandle(t, l.src, entries, pkt.entries, p);
          }
          SameLookups(forwardingTable, HandleTable(t, l.src, pkt.entries));
          SameLookups(triggered, HandleTriggered(t, l.src, pkt.entries));
          out := AnnounceToAll(triggered);
      }
    }
  }
}
