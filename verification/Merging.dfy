/** Importing fetched mirrors into the node list, and reproducing the list after a restart. */
module Merging {
  import opened Common
  import opened NodeList

  datatype ProxyItem = ProxyItem(name: string, url: string, tags: seq<Tag>, access: string,
                                 selectable: bool, official: bool)

  // ---------- fetched items ----------

  /** `strings.TrimRight(s, "/")`. */
  function TrimSlashes(s: string): string {
    if s != [] && Last(s) == '/' then TrimSlashes(Init(s)) else s
  }

  predicate Qualifies(item: ProxyItem) {
    item.access == "public" && item.selectable && !item.official && TrimSlashes(item.url) != ""
  }

  function LowerChar(c: char): char {
    if 'A' <= c <= 'Z' then (c as int + 32) as char else c
  }

  function ToLower(s: string): string {
    seq(|s|, i requires 0 <= i < |s| => LowerChar(s[i]))
  }

  predicate OccursAt(s: string, part: string, i: nat) {
    i + |part| <= |s| && s[i..i + |part|] == part
  }

  predicate Contains(s: string, part: string) {
    exists i: nat | i <= |s| :: OccursAt(s, part, i)
  }

  function DetermineTargets(name: string, url: string): seq<string> {
    var nl, ul := ToLower(name), ToLower(url);
    if Contains(nl, "ghcr") || Contains(ul, "ghcr") then ["ghcr"]
    else if Contains(nl, "gcr") || Contains(ul, "gcr.io") then ["gcr"]
    else ["dockerhub"]
  }

  /** The guess does not depend on the case of letters. */
  lemma TargetsIgnoreCase(name: string, url: string)
    ensures DetermineTargets(ToLower(name), ToLower(url)) == DetermineTargets(name, url)
  {
    LowerTwice(name);
    LowerTwice(url);
  }

  lemma LowerTwice(s: string)
    ensures ToLower(ToLower(s)) == ToLower(s)
  {
    forall i | 0 <= i < |s| ensures LowerChar(LowerChar(s[i])) == LowerChar(s[i]) { }
  }

  function ToNode(item: ProxyItem): NodeInfo {
    var url := TrimSlashes(item.url);
    NodeInfo(url, item.name, true, DetermineTargets(item.name, url), "", item.tags)
  }

  function UrlSet(nodes: Nodes): set<string> {
    set n | n in nodes :: n.url
  }

  /** The nodes a merge hands to the manager, in order. */
  function Chosen(items: seq<ProxyItem>, existing: set<string>): Nodes {
    if items == [] then []
    else
      var before, item := Chosen(Init(items), existing), Last(items);
      var url := TrimSlashes(item.url);
      if Qualifies(item) && url !in existing && url !in UrlSet(before) then before + [ToNode(item)] else before
  }

  /** One more item. */
  lemma ChosenSnoc(items: seq<ProxyItem>, k: nat, existing: set<string>)
    requires k < |items|
    ensures var before, item := Chosen(items[..k], existing), items[k];
            var url := TrimSlashes(item.url);
            Chosen(items[..k + 1], existing)
            == if Qualifies(item) && url !in existing && url !in UrlSet(before) then before + [ToNode(item)] else before
  {
    assert Init(items[..k + 1]) == items[..k] && Last(items[..k + 1]) == items[k];
  }

  /** The `existing` set as `FetchAndMerge` builds it. */
  function TrimmedUrls(nodes: Nodes): set<string> {
    set n | n in nodes :: TrimSlashes(n.url)
  }

  /** The trimmed URLs of the items that pass all filters. */
  function QualifyingUrls(items: seq<ProxyItem>): set<string> {
    set item | item in items && Qualifies(item) :: TrimSlashes(item.url)
  }

  lemma {:induction false} TrimTwice(s: string)
    ensures TrimSlashes(TrimSlashes(s)) == TrimSlashes(s)
  {
    if s != [] && Last(s) == '/' {
      TrimTwice(Init(s));
    }
  }

  lemma HasUrlIffInSet(nodes: Nodes, url: string)
    ensures HasUrl(nodes, url) <==> url in UrlSet(nodes)
  {
    if i :| 0 <= i < |nodes| && nodes[i].url == url { assert nodes[i] in nodes; }
  }

  lemma UrlSetSnoc(nodes: Nodes, n: NodeInfo)
    ensures UrlSet(nodes + [n]) == UrlSet(nodes) + {n.url}
    ensures TrimmedUrls(nodes + [n]) == TrimmedUrls(nodes) + {TrimSlashes(n.url)}
  {
    assert forall m :: m in nodes + [n] <==> m in nodes || m == n;
  }

  lemma ItemsSnoc(items: seq<ProxyItem>)
    requires items != []
    ensures QualifyingUrls(items)
            == QualifyingUrls(Init(items)) + if Qualifies(Last(items)) then {TrimSlashes(Last(items).url)} else {}
  {
    assert items == Init(items) + [Last(items)];
  }

  /** A merge chooses each qualifying URL that is not known, once, in trimmed form. */
  lemma {:induction false} ChosenUrls(items: seq<ProxyItem>, existing: set<string>)
    ensures UrlSet(Chosen(items, existing)) == QualifyingUrls(items) - existing
    ensures DistinctUrls(Chosen(items, existing))
    ensures forall n | n in Chosen(items, existing) :: TrimSlashes(n.url) == n.url && n.enabled
  {
    if items != [] {
      var before, item := Chosen(Init(items), existing), Last(items);
      ChosenUrls(Init(items), existing);
      ItemsSnoc(items);
      TrimTwice(item.url);
      UrlSetSnoc(before, ToNode(item));
      if Chosen(items, existing) != before {
        DistinctSnoc(before, ToNode(item));
      }
    }
  }

  lemma DistinctSnoc(nodes: Nodes, n: NodeInfo)
    requires DistinctUrls(nodes) && n.url !in UrlSet(nodes)
    ensures DistinctUrls(nodes + [n])
  {
    forall i | 0 <= i < |nodes| ensures nodes[i].url != n.url { assert nodes[i] in nodes; }
  }

  /**
   With `existing` built from the list, every chosen node is appended, so the list grows by exactly
   what the result reports; merging the same items again adds nothing.
   */
  lemma MergeAddsExactly(nodes: Nodes, items: seq<ProxyItem>)
    ensures var chosen := Chosen(items, TrimmedUrls(nodes));
            && AddAll(nodes, chosen) == nodes + chosen
            && UrlSet(chosen) == QualifyingUrls(items) - TrimmedUrls(nodes)
            && Chosen(items, TrimmedUrls(nodes + chosen)) == []
  {
    var chosen := Chosen(items, TrimmedUrls(nodes));
    ChosenUrls(items, TrimmedUrls(nodes));
    forall i | 0 <= i < |chosen|
      ensures !HasUrl(nodes, chosen[i].url)
    {
      assert chosen[i] in chosen && chosen[i].url in UrlSet(chosen);
      HasUrlIffInSet(nodes, chosen[i].url);
      TrimmedContainsUrl(nodes, chosen[i].url);
    }
    AddAllNew(nodes, chosen);
    ChosenUrls(items, TrimmedUrls(nodes + chosen));
    assert QualifyingUrls(items) <= TrimmedUrls(nodes + chosen) by {
      forall url | url in QualifyingUrls(items)
        ensures url in TrimmedUrls(nodes + chosen)
      {
        AllTrimmed(nodes, chosen, url);
      }
    }
    NoUrlsNoNodes(Chosen(items, TrimmedUrls(nodes + chosen)));
  }

  lemma TrimmedContainsUrl(nodes: Nodes, url: string)
    requires TrimSlashes(url) == url
    ensures url in UrlSet(nodes) ==> url in TrimmedUrls(nodes)
  {
  }

  lemma NoUrlsNoNodes(nodes: Nodes)
    ensures UrlSet(nodes) == {} <==> nodes == []
  {
    if nodes != [] {
      assert nodes[0].url in UrlSet(nodes);
    }
  }

  lemma AllTrimmed(nodes: Nodes, chosen: Nodes, url: string)
    requires forall n | n in chosen :: TrimSlashes(n.url) == n.url
    requires url in TrimmedUrls(nodes) || url in UrlSet(chosen)
    ensures url in TrimmedUrls(nodes + chosen)
  {
    if n :| n in nodes && TrimSlashes(n.url) == url {
      assert n in nodes + chosen;
    } else {
      var m :| m in chosen && m.url == url;
      assert m in nodes + chosen;
    }
  }

  // ---------- which items are taken, in their own fields ----------

  /** Trimming takes away all slashes at the end and nothing else. */
  lemma {:induction false} TrimmedOf(s: string) returns (slashes: string)
    ensures s == TrimSlashes(s) + slashes && forall c | c in slashes :: c == '/'
    ensures TrimSlashes(s) != "" ==> Last(TrimSlashes(s)) != '/'
  {
    if s != [] && Last(s) == '/' {
      var before := TrimmedOf(Init(s));
      slashes := before + [Last(s)];
    } else {
      slashes := [];
    }
  }

  /** The first `k` items add nothing with this URL. */
  ghost predicate NoneBefore(items: seq<ProxyItem>, k: nat, url: string) {
    forall j | 0 <= j < k <= |items| ::
      items[j].access != "public" || !items[j].selectable || items[j].official || TrimSlashes(items[j].url) != url
  }

  /** `n` is made from the first public, selectable, unofficial item with its trimmed URL. */
  ghost predicate MadeFrom(n: NodeInfo, items: seq<ProxyItem>, i: nat) {
    && i < |items| && NoneBefore(items, i, n.url)
    && items[i].access == "public" && items[i].selectable && !items[i].official
    && n.url == TrimSlashes(items[i].url) != ""
    && n == NodeInfo(n.url, items[i].name, true, DetermineTargets(items[i].name, n.url), "", items[i].tags)
  }

  ghost predicate MadeFromSome(n: NodeInfo, items: seq<ProxyItem>) {
    exists i: nat :: MadeFrom(n, items, i)
  }

  lemma UnchosenBefore(items: seq<ProxyItem>, existing: set<string>, url: string)
    requires url !in existing && url !in UrlSet(Chosen(items, existing)) && url != ""
    ensures NoneBefore(items, |items|, url)
  {
    ChosenUrls(items, existing);
    assert forall j | 0 <= j < |items| :: items[j] in items;
    assert forall item | item in items && Qualifies(item) :: TrimSlashes(item.url) in QualifyingUrls(items);
  }

  /** Every chosen node is made from the first item that offers its URL. */
  lemma {:induction false} ChosenAreMade(items: seq<ProxyItem>, existing: set<string>)
    ensures forall n | n in Chosen(items, existing) :: MadeFromSome(n, items)
  {
    if items != [] {
      var init, item := Init(items), Last(items);
      ChosenAreMade(init, existing);
      forall n | n in Chosen(items, existing)
        ensures MadeFromSome(n, items)
      {
        if n in Chosen(init, existing) {
          var i: nat :| MadeFrom(n, init, i);
          assert MadeFrom(n, items, i);
        } else {
          UnchosenBefore(init, existing, n.url);
          assert MadeFrom(n, items, |init|);
        }
      }
    }
  }

  /**
   A merge adds a URL exactly when no listed node has it, up to slashes at the end, and some fetched
   item is public, selectable and not official and has it, once slashes at its end are gone.
   */
  lemma TakenUrls(nodes: Nodes, items: seq<ProxyItem>)
    ensures forall url :: HasUrl(Chosen(items, TrimmedUrls(nodes)), url) <==>
              && (forall n | n in nodes :: TrimSlashes(n.url) != url)
              && (exists item :: item in items && item.access == "public" && item.selectable && !item.official
                                 && TrimSlashes(item.url) == url && url != "")
  {
    var chosen := Chosen(items, TrimmedUrls(nodes));
    ChosenUrls(items, TrimmedUrls(nodes));
    forall url
      ensures HasUrl(chosen, url) <==> url in QualifyingUrls(items) && url !in TrimmedUrls(nodes)
    {
      HasUrlIffInSet(chosen, url);
    }
  }

  /** The items that `keep` accepts. */
  function KeptItems(items: seq<ProxyItem>, keep: ProxyItem -> bool): seq<ProxyItem> {
    if items == [] then []
    else if keep(Last(items)) then KeptItems(Init(items), keep) + [Last(items)] else KeptItems(Init(items), keep)
  }

  /** Private, unselectable and official items might as well not have been fetched. */
  lemma {:induction false} FilteredItemsDoNotMatter(items: seq<ProxyItem>, existing: set<string>,
                                                    keep: ProxyItem -> bool)
    requires forall item | item in items && item.access == "public" && item.selectable && !item.official :: keep(item)
    ensures Chosen(KeptItems(items, keep), existing) == Chosen(items, existing)
  {
    if items != [] {
      var init, item := Init(items), Last(items);
      assert item in items && forall i | i in init :: i in items;
      FilteredItemsDoNotMatter(init, existing, keep);
      if keep(item) {
        assert Init(KeptItems(init, keep) + [item]) == KeptItems(init, keep);
      }
    }
  }

  // ---------- the guessed registry ----------

  /** `part` stands somewhere in `s`, in capitals or not. */
  ghost predicate Mentions(s: string, part: string) {
    exists before, after :: ToLower(s) == before + part + after
  }

  lemma MentionsIffContains(s: string, part: string)
    ensures Mentions(s, part) <==> Contains(ToLower(s), part)
  {
    var l := ToLower(s);
    if i: nat :| i <= |l| && OccursAt(l, part, i) {
      assert l == l[..i] + part + l[i + |part|..];
    }
    if before, after :| l == before + part + after {
      assert OccursAt(l, part, |before|);
    }
  }

  /** A mirror is taken for GHCR, else for GCR by its name or host, and else for Docker Hub. */
  lemma GuessedTargets(name: string, url: string)
    ensures DetermineTargets(name, url) == ["ghcr"] <==> Mentions(name, "ghcr") || Mentions(url, "ghcr")
    ensures DetermineTargets(name, url) == ["gcr"] <==>
              && !Mentions(name, "ghcr") && !Mentions(url, "ghcr")
              && (Mentions(name, "gcr") || Mentions(url, "gcr.io"))
    ensures DetermineTargets(name, url) == ["dockerhub"] <==>
              !Mentions(name, "ghcr") && !Mentions(url, "ghcr") && !Mentions(name, "gcr") && !Mentions(url, "gcr.io")
  {
    MentionsIffContains(name, "ghcr");
    MentionsIffContains(url, "ghcr");
    MentionsIffContains(name, "gcr");
    MentionsIffContains(url, "gcr.io");
    DifferentTargets();
  }

  lemma DifferentTargets()
    ensures ["ghcr"] != ["gcr"] && ["ghcr"] != ["dockerhub"] && ["gcr"] != ["dockerhub"]
  {
    assert |"ghcr"| == 4 && |"gcr"| == 3 && |"dockerhub"| == 9;
    assert ["ghcr"][0] == "ghcr" && ["gcr"][0] == "gcr" && ["dockerhub"][0] == "dockerhub";
  }

  /** Capital letters go to small ones, and nothing else changes. */
  lemma LowerLetters(s: string)
    ensures |ToLower(s)| == |s|
    ensures ToLower("ABCDEFGHIJKLMNOPQRSTUVWXYZ") == "abcdefghijklmnopqrstuvwxyz"
    ensures (forall c | c in s :: !('A' <= c <= 'Z')) ==> ToLower(s) == s
  {
    assert forall i | 0 <= i < |s| :: s[i] in s;
  }

  // ---------- the JSON file ----------

  datatype NodeEntry = NodeEntry(url: string, displayName: string, targets: seq<string>, token: string)

  function ToEntry(n: NodeInfo): NodeEntry {
    NodeEntry(n.url, n.displayName, n.targets, n.token)
  }

  function FromEntry(e: NodeEntry): NodeInfo {
    NodeInfo(e.url, e.displayName, true, e.targets, e.token, [])
  }

  function Entries(nodes: Nodes): seq<NodeEntry> {
    seq(|nodes|, i requires 0 <= i < |nodes| => ToEntry(nodes[i]))
  }

  function FromEntries(entries: seq<NodeEntry>): Nodes {
    seq(|entries|, i requires 0 <= i < |entries| => FromEntry(entries[i]))
  }

  lemma ReloadKnown(base: Nodes, part: Nodes)
    requires forall i | 0 <= i < |part| :: HasUrl(base, part[i].url)
    ensures AddAll(base, FromEntries(Entries(part))) == base
  {
    AddAllKnown(base, FromEntries(Entries(part)));
  }

  /** Nodes already in the list stay as they are; the first source to mention a URL wins. */
  lemma FirstMentionWins(nodes: Nodes, more: Nodes)
    ensures var all := AddAll(nodes, more);
            |nodes| <= |all| && all[..|nodes|] == nodes
  {
    var extra := AddAllShape(nodes, more);
  }

  /** Loading the saved list on top of its first part appends the rest as the file tells it. */
  lemma ReloadOnTop(base: Nodes, extra: Nodes)
    requires DistinctUrls(extra) && forall i | 0 <= i < |extra| :: !HasUrl(base, extra[i].url)
    ensures AddAll(base, FromEntries(Entries(base + extra))) == base + FromEntries(Entries(extra))
  {
    var loadedBase, loadedExtra := FromEntries(Entries(base)), FromEntries(Entries(extra));
    assert FromEntries(Entries(base + extra)) == loadedBase + loadedExtra;
    AddAllConcat(base, loadedBase, loadedExtra);
    ReloadKnown(base, base);
    AddAllNew(base, loadedExtra);
  }

  /** What the file does not keep is whether a node was enabled, and its tags. */
  lemma FileKeeps(extra: Nodes)
    ensures Urls(FromEntries(Entries(extra))) == Urls(extra)
    ensures FromEntries(Entries(extra)) == extra
            <==> forall n | n in extra :: n.enabled && n.tags == []
  {
    var loaded := FromEntries(Entries(extra));
    if loaded == extra {
      forall n | n in extra ensures n.enabled && n.tags == [] {
        var i :| 0 <= i < |extra| && extra[i] == n;
        assert loaded[i] == n;
      }
    }
  }

  /**
   A restart from the same configuration, the same table and the saved file gives the same ordered
   URLs. Nodes of the configuration and the table come back unchanged, nodes known only from the
   file with URL, name, targets and token; the whole list is the same exactly when these were
   enabled and without tags.
   */
  lemma {:induction false} RestartReproducesList(cfg: Config, rows: Nodes, added: Nodes)
    ensures var base := NewList(cfg, rows);
            var before := AddAll(base, added);
            var restarted := AddAll(base, FromEntries(Entries(before)));
            && |base| <= |before| && before[..|base|] == base
            && restarted == base + FromEntries(Entries(before[|base|..]))
            && Urls(restarted) == Urls(before)
            && (restarted == before <==> forall n | n in before[|base|..] :: n.enabled && n.tags == [])
  {
    hide AddAll, NewList;
    var base := NewList(cfg, rows);
    var extra := AddAllShape(base, added);
    ReloadOnTop(base, extra);
    FileKeeps(extra);
    assert (base + extra)[|base|..] == extra;
    var loaded := FromEntries(Entries(extra));
    assert Urls(base + loaded) == Urls(base) + Urls(loaded) && Urls(base + extra) == Urls(base) + Urls(extra);
    SameTail(base, loaded, extra);
  }

  lemma SameTail(base: Nodes, a: Nodes, b: Nodes)
    ensures base + a == base + b <==> a == b
  {
    if base + a == base + b {
      assert (base + a)[|base|..] == a && (base + b)[|base|..] == b;
    }
  }
}
