/** The ordered node list and the sources it is built from. */
module NodeList {
  import opened Common

  datatype Tag = Tag(name: string, color: string)
  datatype NodeInfo = NodeInfo(url: string, displayName: string, enabled: bool,
                               targets: seq<string>, token: string, tags: seq<Tag>)
  type Nodes = seq<NodeInfo>

  datatype Mirror = Mirror(url: string, displayName: string, token: string)
  datatype Config = Config(dockerhub: seq<Mirror>, ghcr: seq<Mirror>)

  // ---------- building the list ----------

  function FromMirror(m: Mirror, target: string): NodeInfo {
    NodeInfo(m.url, m.displayName, true, [target], m.token, [])
  }

  function FromMirrors(mirrors: seq<Mirror>, target: string): Nodes {
    if mirrors == [] then [] else FromMirrors(Init(mirrors), target) + [FromMirror(Last(mirrors), target)]
  }

  /** The nodes of the configuration, which are not deduplicated. */
  function InitNodes(cfg: Config): Nodes {
    FromMirrors(cfg.dockerhub, "dockerhub") + FromMirrors(cfg.ghcr, "ghcr")
  }

  lemma {:induction false} MirrorAt(mirrors: seq<Mirror>, target: string)
    ensures |FromMirrors(mirrors, target)| == |mirrors|
    ensures forall i | 0 <= i < |mirrors| ::
              FromMirrors(mirrors, target)[i]
              == NodeInfo(mirrors[i].url, mirrors[i].displayName, true, [target], mirrors[i].token, [])
  {
    if mirrors != [] { MirrorAt(Init(mirrors), target); }
  }

  /**
   The list starts with the Docker Hub mirrors and goes on with those of GHCR, each in order; all
   are enabled and serve that registry alone.
   */
  lemma ConfiguredNodes(cfg: Config)
    ensures var nodes, k := InitNodes(cfg), |cfg.dockerhub|;
            && |nodes| == k + |cfg.ghcr|
            && forall i | 0 <= i < |nodes| ::
                 var m := if i < k then cfg.dockerhub[i] else cfg.ghcr[i - k];
                 && nodes[i].url == m.url && nodes[i].displayName == m.displayName && nodes[i].token == m.token
                 && nodes[i].enabled && nodes[i].targets == [if i < k then "dockerhub" else "ghcr"] && nodes[i].tags == []
  {
    MirrorAt(cfg.dockerhub, "dockerhub");
    MirrorAt(cfg.ghcr, "ghcr");
  }

  predicate HasUrl(nodes: Nodes, url: string) {
    exists i :: 0 <= i < |nodes| && nodes[i].url == url
  }

  function AddNode(nodes: Nodes, n: NodeInfo): Nodes {
    if HasUrl(nodes, n.url) then nodes else nodes + [n]
  }

  function AddAll(nodes: Nodes, more: Nodes): Nodes {
    if more == [] then nodes else AddNode(AddAll(nodes, Init(more)), Last(more))
  }

  /** The database rows whose URL is not in `known`, in row order. */
  function NewRows(known: Nodes, rows: Nodes): Nodes {
    if rows == [] then []
    else if HasUrl(known, Last(rows).url) then NewRows(known, Init(rows))
    else NewRows(known, Init(rows)) + [Last(rows)]
  }

  /** `loadFromDB`: compares with the list as it was before the first row. */
  function LoadFromDb(nodes: Nodes, rows: Nodes): Nodes {
    nodes + NewRows(nodes, rows)
  }

  function Urls(nodes: Nodes): seq<string> {
    seq(|nodes|, i requires 0 <= i < |nodes| => nodes[i].url)
  }

  predicate DistinctUrls(nodes: Nodes) {
    forall i, j | 0 <= i < j < |nodes| :: nodes[i].url != nodes[j].url
  }

  function Count(nodes: Nodes, url: string): nat {
    if nodes == [] then 0 else Count(Init(nodes), url) + if Last(nodes).url == url then 1 else 0
  }

  function Max(a: nat, b: nat): nat {
    if a < b then b else a
  }

  // ---------- counting URLs ----------

  lemma {:induction false} CountConcat(a: Nodes, b: Nodes, url: string)
    ensures Count(a + b, url) == Count(a, url) + Count(b, url)
  {
    if b == [] {
      assert a + b == a;
    } else {
      assert Init(a + b) == a + Init(b);
      CountConcat(a, Init(b), url);
    }
  }

  lemma {:induction false} CountZero(nodes: Nodes, url: string)
    ensures Count(nodes, url) > 0 <==> HasUrl(nodes, url)
  {
    if nodes != [] {
      CountZero(Init(nodes), url);
      if i :| 0 <= i < |nodes| && nodes[i].url == url {
        if i < |nodes| - 1 { assert Init(nodes)[i].url == url; }
      }
      if j :| 0 <= j < |Init(nodes)| && Init(nodes)[j].url == url { assert nodes[j].url == url; }
      if Last(nodes).url == url { assert nodes[|nodes| - 1].url == url; }
    }
  }

  lemma {:induction false} CountDistinct(nodes: Nodes, url: string)
    requires DistinctUrls(nodes)
    ensures Count(nodes, url) <= 1
  {
    if nodes != [] {
      CountDistinct(Init(nodes), url);
      CountZero(Init(nodes), url);
    }
  }

  /** `AddNode` adds a URL only when it is absent. */
  lemma CountAdd(nodes: Nodes, n: NodeInfo, url: string)
    ensures Count(AddNode(nodes, n), url)
            == if url == n.url then Max(1, Count(nodes, url)) else Count(nodes, url)
  {
    CountZero(nodes, n.url);
    CountConcat(nodes, [n], url);
    assert Init([n]) == [];
  }

  lemma {:induction false} NewRowsCount(known: Nodes, rows: Nodes, url: string)
    ensures Count(NewRows(known, rows), url) == if HasUrl(known, url) then 0 else Count(rows, url)
  {
    if rows != [] {
      NewRowsCount(known, Init(rows), url);
      CountConcat(NewRows(known, Init(rows)), [Last(rows)], url);
      assert Init([Last(rows)]) == [];
    }
  }

  /** Each row is taken or skipped on its own: taken exactly when its URL is not in the list. */
  lemma {:induction false} RowsTaken(known: Nodes, a: Nodes, row: NodeInfo, b: Nodes)
    ensures LoadFromDb(known, []) == known
    ensures LoadFromDb(known, a + [row] + b)
            == LoadFromDb(known, a) + (if exists n :: n in known && n.url == row.url then [] else [row])
               + LoadFromDb(known, b)[|known|..]
  {
    NewRowsConcat(known, a + [row], b);
    assert Init(a + [row]) == a;
    if n :| n in known && n.url == row.url {
      var i :| 0 <= i < |known| && known[i] == n;
      assert known[i].url == row.url;
    }
    assert LoadFromDb(known, b)[|known|..] == NewRows(known, b);
  }

  lemma NewRowsSnoc(known: Nodes, rows: Nodes, row: NodeInfo)
    ensures NewRows(known, rows + [row]) == NewRows(known, rows) + if HasUrl(known, row.url) then [] else [row]
  {
    assert Init(rows + [row]) == rows;
  }

  lemma {:induction false} NewRowsConcat(known: Nodes, a: Nodes, b: Nodes)
    ensures NewRows(known, a + b) == NewRows(known, a) + NewRows(known, b)
  {
    if b == [] {
      assert a + b == a;
    } else {
      hide NewRows, HasUrl;
      var init, row := Init(b), Last(b);
      assert b == init + [row] && a + b == a + init + [row];
      NewRowsConcat(known, a, init);
      NewRowsSnoc(known, a + init, row);
      NewRowsSnoc(known, init, row);
    }
  }

  // ---------- any interleaving of additions and reloads ----------

  /** Merges and file loads add one node at a time; a reload replaces the list. */
  datatype Change = Add(node: NodeInfo) | Reload(cfg: Config)

  function Apply(nodes: Nodes, c: Change): Nodes {
    match c
    case Add(n) => AddNode(nodes, n)
    case Reload(cfg) => InitNodes(cfg)
  }

  function ApplyAll(nodes: Nodes, changes: seq<Change>): Nodes {
    if changes == [] then nodes else Apply(ApplyAll(nodes, Init(changes)), Last(changes))
  }

  function LatestConfig(cfg: Config, changes: seq<Change>): Config {
    if changes == [] then cfg
    else if Last(changes).Reload? then Last(changes).cfg
    else LatestConfig(cfg, Init(changes))
  }

  /** A manager as `NewManagerWithStore` builds it; the table has unique URLs. */
  function NewList(cfg: Config, rows: Nodes): Nodes {
    LoadFromDb(InitNodes(cfg), rows)
  }

  lemma NewListCount(cfg: Config, rows: Nodes, url: string)
    requires DistinctUrls(rows)
    ensures Count(InitNodes(cfg), url) <= Count(NewList(cfg, rows), url) <= Max(1, Count(InitNodes(cfg), url))
  {
    var base := InitNodes(cfg);
    CountConcat(base, NewRows(base, rows), url);
    NewRowsCount(base, rows, url);
    CountZero(base, url);
    CountDistinct(rows, url);
  }

  /**
   However additions and reloads interleave, a URL occurs as often as in the latest configuration,
   or at most once if it is not in there.
   */
  lemma {:induction false} NoDuplicatesUnderInterleaving(cfg: Config, rows: Nodes, changes: seq<Change>, url: string)
    requires DistinctUrls(rows)
    ensures var nodes, configured := ApplyAll(NewList(cfg, rows), changes),
                                     Count(InitNodes(LatestConfig(cfg, changes)), url);
            && (configured > 0 ==> Count(nodes, url) == configured)
            && (configured == 0 ==> Count(nodes, url) <= 1)
  {
    if changes == [] {
      NewListCount(cfg, rows, url);
    } else {
      NoDuplicatesUnderInterleaving(cfg, rows, Init(changes), url);
      match Last(changes)
      case Add(n) => CountAdd(ApplyAll(NewList(cfg, rows), Init(changes)), n, url);
      case Reload(_) =>
    }
  }

  // ---------- adding many nodes ----------

  /** Nodes already known are skipped, wherever they stand. */
  lemma {:induction false} AddAllKnown(nodes: Nodes, more: Nodes)
    requires forall i | 0 <= i < |more| :: HasUrl(nodes, more[i].url)
    ensures AddAll(nodes, more) == nodes
  {
    if more != [] {
      forall i | 0 <= i < |Init(more)|
        ensures HasUrl(nodes, Init(more)[i].url)
      {
        assert Init(more)[i] == more[i];
      }
      AddAllKnown(nodes, Init(more));
    }
  }

  /** New nodes with distinct URLs are all appended, in order. */
  lemma {:induction false} AddAllNew(nodes: Nodes, more: Nodes)
    requires DistinctUrls(more) && forall i | 0 <= i < |more| :: !HasUrl(nodes, more[i].url)
    ensures AddAll(nodes, more) == nodes + more
  {
    if more == [] {
      assert nodes + more == nodes;
    } else {
      forall i | 0 <= i < |Init(more)|
        ensures !HasUrl(nodes, Init(more)[i].url)
      {
        assert Init(more)[i] == more[i];
      }
      AddAllNew(nodes, Init(more));
      assert !HasUrl(nodes + Init(more), Last(more).url) by {
        if i :| 0 <= i < |nodes + Init(more)| && (nodes + Init(more))[i].url == Last(more).url {
          if i < |nodes| { assert nodes[i].url == Last(more).url; assert !HasUrl(nodes, more[|more| - 1].url); }
        }
      }
      assert nodes + Init(more) + [Last(more)] == nodes + more;
    }
  }

  lemma {:induction false} AddAllConcat(nodes: Nodes, a: Nodes, b: Nodes)
    ensures AddAll(nodes, a + b) == AddAll(AddAll(nodes, a), b)
  {
    if b == [] {
      assert a + b == a;
    } else {
      assert Init(a + b) == a + Init(b);
      AddAllConcat(nodes, a, Init(b));
    }
  }

  /** What `AddAll` appends: distinct URLs that were absent. */
  lemma {:induction false} AddAllShape(nodes: Nodes, more: Nodes) returns (extra: Nodes)
    ensures AddAll(nodes, more) == nodes + extra
    ensures DistinctUrls(extra) && forall i | 0 <= i < |extra| :: !HasUrl(nodes, extra[i].url)
    ensures forall i | 0 <= i < |extra| :: extra[i] in more
  {
    if more == [] {
      extra := [];
      assert nodes + [] == nodes;
    } else {
      var before := AddAllShape(nodes, Init(more));
      extra := before;
      if !HasUrl(nodes + before, Last(more).url) {
        extra := before + [Last(more)];
        assert nodes + before + [Last(more)] == nodes + extra;
        AbsentFromConcat(nodes, before, Last(more).url);
      }
    }
  }

  lemma AbsentFromConcat(a: Nodes, b: Nodes, url: string)
    ensures HasUrl(a + b, url) <==> HasUrl(a, url) || HasUrl(b, url)
  {
    CountConcat(a, b, url);
    CountZero(a + b, url);
    CountZero(a, url);
    CountZero(b, url);
  }
}
