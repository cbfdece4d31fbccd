/** Splits the blocks of a control flow graph into clusters that control flow holds together. */
module ProcedureBuilders {

  /** Every edge is known at both ends. */
  datatype Cfg = Cfg(nodes: set<nat>, succs: map<nat, seq<nat>>, preds: map<nat, seq<nat>>) {

    ghost predicate WellFormed() {
      && succs.Keys == nodes && preds.Keys == nodes
      && (forall u, v :: u in nodes && v in succs[u] ==> v in nodes && u in preds[v])
      && (forall u, v :: u in nodes && v in preds[u] ==> v in nodes && u in succs[v])
    }

    /** There is an edge between the two, one way or the other. */
    ghost predicate Adjacent(u: nat, v: nat) {
      u in nodes && WellFormed() && (v in succs[u] || v in preds[u])
    }

    ghost predicate ConnectedIn(u: nat, v: nat, n: nat)
      decreases n
    {
      if n == 0 then u == v && u in nodes
      else exists w :: ConnectedIn(u, w, n - 1) && Adjacent(w, v)
    }

    /** A path leads from one to the other along edges in either direction. */
    ghost predicate Connected(u: nat, v: nat) {
      exists n: nat :: ConnectedIn(u, v, n)
    }

    /** No edge leads out of the set or into it. */
    ghost predicate Closed(s: set<nat>) {
      s <= nodes && forall u, v :: u in s && Adjacent(u, v) ==> v in s
    }

    lemma {:induction false} ClosedHoldsPaths(s: set<nat>, u: nat, v: nat, n: nat)
      requires Closed(s) && u in s && ConnectedIn(u, v, n)
      ensures v in s
      decreases n
    {
      if n > 0 {
        var w :| ConnectedIn(u, w, n - 1) && Adjacent(w, v);
        ClosedHoldsPaths(s, u, w, n - 1);
      }
    }

    lemma AdjacentIsSymmetric(u: nat, v: nat)
      requires Adjacent(u, v)
      ensures Adjacent(v, u) && v in nodes
    {
    }

    lemma ConnectedOn(u: nat, w: nat, v: nat)
      requires Connected(u, w) && Adjacent(w, v)
      ensures Connected(u, v)
    {
      var n: nat :| ConnectedIn(u, w, n);
      assert ConnectedIn(u, v, n + 1);
    }

    lemma ConnectedToItself(u: nat)
      requires u in nodes
      ensures Connected(u, u)
    {
      assert ConnectedIn(u, u, 0);
    }

    /** What is left of a closed set without a closed part of it is closed. */
    lemma RestIsClosed(s: set<nat>, part: set<nat>)
      requires Closed(s) && Closed(part) && part <= s
      ensures Closed(s - part)
    {
      forall u, v | u in s - part && Adjacent(u, v)
        ensures v in s - part
      {
        AdjacentIsSymmetric(u, v);
      }
    }
  }

  datatype BlockCluster = BlockCluster(entries: seq<nat>, blocks: set<nat>)

  ghost predicate NoRepeats(s: seq<nat>) {
    forall i, j :: 0 <= i < j < |s| ==> s[i] != s[j]
  }

  /** The cluster is all that is connected with the address; its entries are what has no predecessors. */
  ghost predicate IsCluster(g: Cfg, addr: nat, c: BlockCluster)
    requires g.WellFormed()
  {
    && (forall v :: v in c.blocks <==> g.Connected(addr, v))
    && (forall v :: v in c.entries <==> v in c.blocks && v in g.nodes && g.preds[v] == [])
    && NoRepeats(c.entries)
  }

  /** What is known while the blocks connected with an address are being collected. */
  ghost predicate Collecting(g: Cfg, addr: nat, wl: seq<nat>, blocks: set<nat>, entries: seq<nat>, remaining: set<nat>) {
    && g.WellFormed() && blocks !! remaining
    && (forall v :: v in blocks ==> v in g.nodes && g.Connected(addr, v))
    && (forall v :: v in wl && v in remaining ==> g.Connected(addr, v))
    && (forall u, v :: u in blocks && g.Adjacent(u, v) ==> v in blocks || v in wl)
    && (forall v :: v in wl ==> v in blocks || v in remaining || v == addr)
    && (forall v :: v in entries <==> v in blocks && v in g.nodes && g.preds[v] == [])
    && NoRepeats(entries)
  }

  class ProcedureBuilder {
    const cfg: Cfg

    constructor (cfg: Cfg)
      ensures this.cfg == cfg
    {
      this.cfg := cfg;
    }

    /** Those of the neighbours that are still to be placed. */
    method StillRemaining(neighbours: seq<nat>, remaining: set<nat>) returns (found: seq<nat>)
      ensures forall v :: v in found <==> v in neighbours && v in remaining
    {
      found := [];
      for i := 0 to |neighbours|
        invariant forall v :: v in found <==> v in neighbours[..i] && v in remaining
      {
        if neighbours[i] in remaining {
          found := found + [neighbours[i]];
        }
        assert neighbours[..i + 1] == neighbours[..i] + [neighbours[i]];
      }
      assert neighbours[..|neighbours|] == neighbours;
    }

    /** Takes the blocks that are connected with the address out of the remaining ones. */
    method FindWcc(addr: nat, blocksRemaining: set<nat>) returns (cluster: BlockCluster, remaining: set<nat>)
      requires cfg.WellFormed() && cfg.Closed(blocksRemaining)
      ensures remaining == blocksRemaining - cluster.blocks && cluster.blocks <= blocksRemaining && cfg.Closed(remaining)
      ensures addr !in blocksRemaining ==> cluster == BlockCluster([], {})
      ensures addr in blocksRemaining ==> IsCluster(cfg, addr, cluster)
    {
      hide Cfg.Adjacent, Cfg.Connected, Cfg.WellFormed, Collecting, IsCluster;
      InNodes();
      var clusterBlocks, possibleEntries: seq<nat> := {}, [];
      remaining := blocksRemaining;
      var wl := [addr];
      StartCollecting(addr, blocksRemaining);
      while wl != []
        invariant Collecting(cfg, addr, wl, clusterBlocks, possibleEntries, remaining)
        invariant clusterBlocks + remaining == blocksRemaining && clusterBlocks !! remaining
        invariant addr in wl || (addr !in remaining && (addr in blocksRemaining ==> addr in clusterBlocks))
        invariant addr !in blocksRemaining ==> clusterBlocks == {} && possibleEntries == [] && (wl == [] || wl == [addr])
        decreases |remaining|, |wl|
      {
        var addrBlock := wl[0];
        ghost var before, wl0 := remaining, wl;
        wl := wl[1..];
        if addrBlock !in remaining {
          SkipOne(addr, wl0, clusterBlocks, possibleEntries, remaining);
          continue;
        }
        remaining := remaining - {addrBlock};
        var succs := StillRemaining(cfg.succs[addrBlock], remaining);
        var preds := StillRemaining(cfg.preds[addrBlock], remaining);
        ghost var entries := possibleEntries + if cfg.preds[addrBlock] == [] then [addrBlock] else [];
        TakeOne(addr, wl0, clusterBlocks, possibleEntries, before, succs, preds);
        clusterBlocks := clusterBlocks + {addrBlock};
        wl := wl + succs + preds;
        if |cfg.preds[addrBlock]| == 0 {
          possibleEntries := possibleEntries + [addrBlock];
        }
        assert possibleEntries == entries;
      }
      cluster := BlockCluster(possibleEntries, clusterBlocks);
      AllCollected(addr, clusterBlocks, possibleEntries, remaining, blocksRemaining);
    }

    lemma InNodes()
      requires cfg.WellFormed()
      ensures cfg.succs.Keys == cfg.nodes == cfg.preds.Keys
    {
    }

    lemma StartCollecting(addr: nat, remaining: set<nat>)
      requires cfg.WellFormed() && cfg.Closed(remaining)
      ensures Collecting(cfg, addr, [addr], {}, [], remaining)
    {
      if addr in remaining {
        cfg.ConnectedToItself(addr);
      }
    }

    lemma SkipOne(addr: nat, wl: seq<nat>, blocks: set<nat>, entries: seq<nat>, remaining: set<nat>)
      requires Collecting(cfg, addr, wl, blocks, entries, remaining) && wl != [] && wl[0] !in remaining
      requires cfg.Closed(blocks + remaining)
      ensures Collecting(cfg, addr, wl[1..], blocks, entries, remaining)
    {
      hide Cfg.Adjacent, Cfg.Connected, Cfg.WellFormed, NoRepeats;
      assert wl == [wl[0]] + wl[1..];
      forall u, v | u in blocks && cfg.Adjacent(u, v)
        ensures v in blocks || v in wl[1..]
      {
        assert v in blocks + remaining;
      }
    }

    lemma Neighbours(u: nat)
      requires cfg.WellFormed() && u in cfg.nodes
      ensures u in cfg.succs && u in cfg.preds
      ensures forall v :: cfg.Adjacent(u, v) <==> v in cfg.succs[u] || v in cfg.preds[u]
    {
    }

    lemma TakeOne(addr: nat, wl: seq<nat>, blocks: set<nat>, entries: seq<nat>, remaining: set<nat>, succs: seq<nat>, preds: seq<nat>)
      requires Collecting(cfg, addr, wl, blocks, entries, remaining) && wl != [] && wl[0] in remaining
      requires cfg.Closed(blocks + remaining) && wl[0] in cfg.nodes
      requires forall v :: v in succs <==> v in cfg.succs[wl[0]] && v in remaining - {wl[0]}
      requires forall v :: v in preds <==> v in cfg.preds[wl[0]] && v in remaining - {wl[0]}
      ensures Collecting(cfg, addr, wl[1..] + succs + preds, blocks + {wl[0]},
                         entries + (if cfg.preds[wl[0]] == [] then [wl[0]] else []), remaining - {wl[0]})
    {
      hide Cfg.Connected, Cfg.Adjacent, Cfg.WellFormed;
      InNodes();
      var u := wl[0];
      Neighbours(u);
      assert wl == [u] + wl[1..];
      forall v | v in succs || v in preds
        ensures cfg.Connected(addr, v)
      {
        cfg.ConnectedOn(addr, u, v);
      }
    }

    lemma AllCollected(addr: nat, blocks: set<nat>, entries: seq<nat>, remaining: set<nat>, all: set<nat>)
      requires Collecting(cfg, addr, [], blocks, entries, remaining) && blocks + remaining == all && cfg.Closed(all)
      requires addr in all ==> addr in blocks
      ensures cfg.Closed(remaining) && remaining == all - blocks
      ensures addr in all ==> IsCluster(cfg, addr, BlockCluster(entries, blocks))
    {
      assert cfg.Closed(blocks);
      cfg.RestIsClosed(all, blocks);
      if addr in all {
        forall v | cfg.Connected(addr, v)
          ensures v in blocks
        {
          var n: nat :| cfg.ConnectedIn(addr, v, n);
          cfg.ClosedHoldsPaths(blocks, addr, v, n);
        }
      }
    }

    /** The clusters are disjoint from each other and from what remains, and nothing is forgotten. */
    ghost predicate Partition(clusters: seq<BlockCluster>, remaining: set<nat>) {
      && (forall i, j, v :: 0 <= i < j < |clusters| && v in clusters[i].blocks ==> v !in clusters[j].blocks)
      && (forall i, v :: 0 <= i < |clusters| && v in clusters[i].blocks ==> v in cfg.nodes && v !in remaining)
      && (forall v :: v in cfg.nodes && v !in remaining ==> exists i :: 0 <= i < |clusters| && v in clusters[i].blocks)
    }

    ghost predicate AreClusters(clusters: seq<BlockCluster>)
      requires cfg.WellFormed()
    {
      forall i :: 0 <= i < |clusters| && clusters[i].blocks != {} ==>
        exists addr :: addr in clusters[i].blocks && IsCluster(cfg, addr, clusters[i])
    }

    lemma OneMoreCluster(clusters: seq<BlockCluster>, remaining: set<nat>, c: BlockCluster, addr: nat)
      requires cfg.WellFormed() && Partition(clusters, remaining) && AreClusters(clusters)
      requires c.blocks <= remaining <= cfg.nodes
      requires c.blocks != {} ==> addr in c.blocks && IsCluster(cfg, addr, c)
      ensures Partition(clusters + [c], remaining - c.blocks) && AreClusters(clusters + [c])
    {
      hide IsCluster, Cfg.WellFormed;
      NewPartition(clusters, remaining, c);
      var all := clusters + [c];
      forall i | 0 <= i < |all| && all[i].blocks != {}
        ensures exists a :: a in all[i].blocks && IsCluster(cfg, a, all[i])
      {
        if i < |clusters| {
          assert all[i] == clusters[i];
        } else {
          assert addr in all[i].blocks && IsCluster(cfg, addr, all[i]);
        }
      }
    }

    lemma NewPartition(clusters: seq<BlockCluster>, remaining: set<nat>, c: BlockCluster)
      requires Partition(clusters, remaining) && c.blocks <= remaining <= cfg.nodes
      ensures Partition(clusters + [c], remaining - c.blocks)
    {
      var all := clusters + [c];
      assert forall i :: 0 <= i < |clusters| ==> all[i] == clusters[i];
      forall v | v in cfg.nodes && v !in remaining - c.blocks
        ensures exists i :: 0 <= i < |all| && v in all[i].blocks
      {
        if v in c.blocks {
          assert all[|clusters|] == c;
        } else {
          var i :| 0 <= i < |clusters| && v in clusters[i].blocks;
          assert all[i] == clusters[i];
        }
      }
      forall i, j, v | 0 <= i < j < |all| && v in all[i].blocks
        ensures v !in all[j].blocks
      {
        assert all[i] == clusters[i];
      }
    }

    /** One cluster for every called address, some of them empty, and more until no block remains. */
    method BuildProcedures(calledAddresses: seq<nat>) returns (clusters: seq<BlockCluster>)
      requires cfg.WellFormed()
      ensures Partition(clusters, {}) && AreClusters(clusters)
    {
      hide Cfg.Adjacent, Cfg.Connected, IsCluster, Partition, AreClusters, Cfg.Closed;
      var blocksRemaining := cfg.nodes;
      clusters := [];
      NothingPlaced();
      for k := 0 to |calledAddresses|
        invariant blocksRemaining <= cfg.nodes && cfg.Closed(blocksRemaining)
        invariant Partition(clusters, blocksRemaining) && AreClusters(clusters)
      {
        var addr := calledAddresses[k];
        var cluster, remaining := FindWcc(addr, blocksRemaining);
        if addr in blocksRemaining {
          ItsOwnCluster(addr, cluster);
        }
        OneMoreCluster(clusters, blocksRemaining, cluster, addr);
        clusters, blocksRemaining := clusters + [cluster], remaining;
      }
      while blocksRemaining != {}
        invariant blocksRemaining <= cfg.nodes && cfg.Closed(blocksRemaining)
        invariant Partition(clusters, blocksRemaining) && AreClusters(clusters)
        decreases |blocksRemaining|
      {
        var addr :| addr in blocksRemaining;
        var cluster, remaining := FindWcc(addr, blocksRemaining);
        ItsOwnCluster(addr, cluster);
        OneMoreCluster(clusters, blocksRemaining, cluster, addr);
        assert remaining < blocksRemaining;
        clusters, blocksRemaining := clusters + [cluster], remaining;
      }
    }

    lemma NothingPlaced()
      requires cfg.WellFormed()
      ensures cfg.Closed(cfg.nodes) && Partition([], cfg.nodes) && AreClusters([])
    {
    }

    lemma ItsOwnCluster(addr: nat, c: BlockCluster)
      requires cfg.WellFormed() && addr in cfg.nodes && IsCluster(cfg, addr, c)
      ensures addr in c.blocks
    {
      cfg.ConnectedToItself(addr);
    }
  }
}
