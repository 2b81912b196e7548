/** Merging fetched mirrors into the manager. */
module Fetcher {
  import opened Common
  import opened NodeList
  import opened NodeManager
  import opened Merging
  import opened Persist

  datatype FetchResult = FetchResult(fetched: nat, skipped: nat, added: nat, total: nat, nodes: seq<string>)

  function DisplayNames(nodes: Nodes): seq<string> {
    seq(|nodes|, i requires 0 <= i < |nodes| => nodes[i].displayName)
  }

  /** Filters, deduplicates and adds the items one by one; `seen` is the updated `existing` set. */
  method MergeIntoManager(items: seq<ProxyItem>, mgr: Manager, existing: set<string>)
    returns (result: FetchResult, seen: set<string>)
    requires mgr.Valid()
    modifies mgr`nodes
    ensures mgr.Valid()
    ensures mgr.List() == AddAll(old(mgr.List()), Chosen(items, existing))
    ensures seen == existing + UrlSet(Chosen(items, existing))
    ensures result.fetched == |items| == result.skipped + result.added
    ensures result.added == |Chosen(items, existing)| && result.nodes == DisplayNames(Chosen(items, existing))
    ensures result.total == |mgr.List()|
  {
    hide Chosen, AddAll, DetermineTargets, TrimSlashes, UrlSet;
    assert Chosen([], existing) == [] && UrlSet([]) == {} by { NothingChosen(existing); }
    assert AddAll(mgr.List(), []) == mgr.List() by { NothingAdded(mgr.List()); }
    var fetched, skipped, added := 0, 0, 0;
    var names := [];
    seen := existing;
    for i := 0 to |items|
      invariant mgr.Valid()
      invariant mgr.List() == AddAll(old(mgr.List()), Chosen(items[..i], existing))
      invariant seen == existing + UrlSet(Chosen(items[..i], existing))
      invariant fetched == i == skipped + added
      invariant added == |Chosen(items[..i], existing)| && names == DisplayNames(Chosen(items[..i], existing))
    {
      ghost var chosen := Chosen(items[..i], existing);
      ChosenSnoc(items, i, existing);
      var item := items[i];
      fetched := fetched + 1;
      if item.access != "public" {
        skipped := skipped + 1;
        continue;
      }
      if !item.selectable {
        skipped := skipped + 1;
        continue;
      }
      if item.official {
        skipped := skipped + 1;
        continue;
      }
      var url := TrimSlashes(item.url);
      if url == "" {
        skipped := skipped + 1;
        continue;
      }
      if url in seen {
        skipped := skipped + 1;
        continue;
      }
      seen := seen + {url};
      var targets := DetermineTargets(item.name, url);
      var node := new Node(NodeInfo(url, item.name, true, targets, "", item.tags));
      mgr.AddNode(node);
      added := added + 1;
      names := names + [item.name];
      UrlSetSnoc(chosen, ToNode(item));
      AddAllSnoc(old(mgr.List()), chosen, ToNode(item));
    }
    assert items[..|items|] == items;
    result := FetchResult(fetched, skipped, added, |mgr.nodes|, names);
  }

  lemma NothingChosen(existing: set<string>)
    ensures Chosen([], existing) == [] && UrlSet([]) == {}
  {
  }

  lemma NothingAdded(nodes: Nodes)
    ensures AddAll(nodes, []) == nodes
  {
  }

  lemma AddAllSnoc(nodes: Nodes, more: Nodes, n: NodeInfo)
    ensures AddAll(nodes, more + [n]) == AddNode(AddAll(nodes, more), n)
  {
    assert Init(more + [n]) == more;
  }

  /** The trimmed URLs of the list. */
  method ExistingUrls(mgr: Manager) returns (existing: set<string>)
    ensures existing == TrimmedUrls(mgr.List())
  {
    existing := {};
    for i := 0 to |mgr.nodes|
      invariant existing == TrimmedUrls(mgr.List()[..i])
    {
      assert mgr.List()[..i + 1] == mgr.List()[..i] + [mgr.List()[i]];
      UrlSetSnoc(mgr.List()[..i], mgr.List()[i]);
      existing := existing + {TrimSlashes(mgr.nodes[i].info.url)};
    }
    assert mgr.List()[..|mgr.nodes|] == mgr.List();
  }

  /**
   Fetches and merges; `fetched` is what the remote source returned, if it did, and `file` where to
   save, if anywhere. The list grows by exactly what is reported as added, the added URLs are the
   qualifying ones that were absent, and the grown list is saved exactly when it has grown.
   */
  method FetchAndMerge(fetched: Option<seq<ProxyItem>>, mgr: Manager, file: NodesFile?, fault: WriteFault)
    returns (r: Option<FetchResult>)
    requires mgr.Valid()
    modifies mgr`nodes, file
    ensures mgr.Valid()
    ensures fetched == None ==> r == None && mgr.List() == old(mgr.List())
    ensures fetched.Some? ==>
              && r.Some?
              && old(mgr.List()) <= mgr.List()
              && |mgr.List()| == |old(mgr.List())| + r.value.added
              && mgr.List() == old(mgr.List()) + Chosen(fetched.value, TrimmedUrls(old(mgr.List())))
    ensures fetched.Some? ==>
              var added := mgr.List()[|old(mgr.List())|..];
              && (forall n | n in added :: MadeFromSome(n, fetched.value))
              && UrlSet(added) == QualifyingUrls(fetched.value) - TrimmedUrls(old(mgr.List()))
              && (forall url :: HasUrl(added, url) <==>
                    && (forall n | n in old(mgr.List()) :: TrimSlashes(n.url) != url)
                    && (exists item :: item in fetched.value && item.access == "public" && item.selectable
                                       && !item.official && TrimSlashes(item.url) == url && url != ""))
    ensures file != null ==>
              file.disk == if mgr.List() == old(mgr.List()) then old(file.disk)
                           else Written(old(file.disk), mgr.List(), fault)
  {
    if fetched == None {
      return None;
    }
    var existing := ExistingUrls(mgr);
    MergeAddsExactly(mgr.List(), fetched.value);
    ghost var before, chosen := mgr.List(), Chosen(fetched.value, existing);
    var result, _ := MergeIntoManager(fetched.value, mgr, existing);
    assert (before + chosen)[|before|..] == chosen;
    ChosenAreMade(fetched.value, existing);
    TakenUrls(before, fetched.value);
    if file != null && result.added > 0 {
      var _ := file.Save(mgr, fault);
    }
    return Some(result);
  }
}
