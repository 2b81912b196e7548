/** Saving the node list to a JSON file and loading it again. */
module Persist {
  import opened Common
  import opened NodeList
  import opened NodeManager
  import opened Merging
  import NodeTable

  /** What the file holds; `Damaged` stands for text that does not decode. */
  datatype Disk = Missing | Damaged | Saved(entries: seq<NodeEntry>)

  datatype WriteFault = NoFault | NotOpened | Interrupted

  /** What writing the list leaves on disk; an interrupted write damages the file. */
  function Written(disk: Disk, nodes: Nodes, fault: WriteFault): Disk {
    match fault
    case NoFault => Saved(Entries(nodes))
    case NotOpened => disk
    case Interrupted => Damaged
  }

  class NodesFile {
    var disk: Disk

    constructor ()
      ensures disk == Missing
    {
      disk := Missing;
    }

    /** Overwrites the file with the entries of the list. */
    method Save(mgr: Manager, fault: WriteFault) returns (ok: bool)
      modifies this
      ensures ok == fault.NoFault?
      ensures disk == Written(old(disk), mgr.List(), fault)
    {
      if fault.NotOpened? {
        return false;
      }
      var entries := [];
      for i := 0 to |mgr.nodes|
        invariant entries == Entries(mgr.List()[..i])
      {
        var n := mgr.nodes[i].info;
        assert mgr.List()[..i + 1] == mgr.List()[..i] + [mgr.List()[i]];
        entries := entries + [NodeEntry(n.url, n.displayName, n.targets, n.token)];
      }
      assert mgr.List()[..|mgr.nodes|] == mgr.List();
      if fault.Interrupted? {
        disk := Damaged;
        return false;
      }
      disk := Saved(entries);
      return true;
    }

    /** Adds the entries of the file to the list and reports how many there were. */
    method Load(mgr: Manager, readFails: bool) returns (count: nat, ok: bool)
      requires mgr.Valid()
      modifies mgr`nodes
      ensures mgr.Valid()
      ensures ok == ((!readFails || disk.Missing?) && !disk.Damaged?)
      ensures count == if ok && disk.Saved? then |disk.entries| else 0
      ensures mgr.List() == if ok && disk.Saved? then AddAll(old(mgr.List()), FromEntries(disk.entries))
                            else old(mgr.List())
    {
      if disk.Missing? {
        return 0, true;
      }
      if readFails || disk.Damaged? {
        return 0, false;
      }
      var entries := disk.entries;
      ghost var infos := FromEntries(entries);
      count := 0;
      for i := 0 to |entries|
        invariant mgr.Valid() && count == i
        invariant mgr.List() == AddAll(old(mgr.List()), infos[..i])
      {
        assert Init(infos[..i + 1]) == infos[..i] && Last(infos[..i + 1]) == infos[i];
        var node := new Node(FromEntry(entries[i]));
        mgr.AddNode(node);
        count := count + 1;
      }
      assert infos[..|infos|] == infos;
      return count, true;
    }
  }

  /**
   Restart: a manager built from the same configuration and table that loads the saved file shows
   the same ordered URLs as the one that saved it.
   */
  method Restart(cfg: Config, mgr: Manager, ghost added: Nodes, file: NodesFile) returns (next: Manager, ok: bool)
    requires mgr.Valid() && mgr.db != null
    requires mgr.List() == AddAll(NewList(cfg, NodeTable.Load(mgr.db.nodes)), added)
    modifies file
    ensures ok && next.Valid() && Urls(next.List()) == Urls(mgr.List())
  {
    hide AddAll, NewList, Entries, FromEntries, Urls, NodeTable.Load;
    var saved := file.Save(mgr, NoFault);
    next := new Manager(cfg, mgr.db, false);
    RestartReproducesList(cfg, NodeTable.Load(mgr.db.nodes), added);
    var count;
    count, ok := file.Load(next, false);
  }
}
