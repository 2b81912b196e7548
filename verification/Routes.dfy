/** The registry path router: which route a path takes, and what it extracts from it. */
module Routes {
  import opened Common

  const ROOT := "/v2/"
  const MANIFESTS := "/manifests/"
  const BLOBS := "/blobs/"
  const UPLOADS := "/blobs/uploads/"

  datatype Route = Ping | Upload | Manifest(name: string, reference: string) | Blob(name: string, digest: string) | NotFound

  // ---------- what the patterns mean ----------

  /** What `(.+)` captures: at least one character, none of them a newline. */
  predicate IsName(name: string) {
    name != "" && '\n' !in name
  }

  /** What `([^/]+)` captures. */
  predicate IsLeaf(leaf: string) {
    leaf != "" && '/' !in leaf
  }

  function Print(name: string, middle: string, leaf: string): string {
    ROOT + name + middle + leaf
  }

  /** `^/v2/(.+)<middle>([^/]+)$` matches `path` with these two groups. */
  predicate Matches(path: string, middle: string, name: string, leaf: string) {
    path == Print(name, middle, leaf) && IsName(name) && IsLeaf(leaf)
  }

  /** `^/v2/(.+)/blobs/uploads/$` matches `path` with this group. */
  predicate MatchesUpload(path: string, name: string) {
    path == ROOT + name + UPLOADS && IsName(name)
  }

  // ---------- matching ----------

  /** The position after the last slash; everything from there on is slash-free. */
  function LeafStart(path: string): (i: nat)
    ensures i <= |path|
    ensures '/' !in path[i..]
    ensures i > 0 ==> path[i - 1] == '/'
  {
    if path == "" then 0
    else if Last(path) == '/' then |path|
    else
      var i := LeafStart(Init(path));
      assert path[i..] == Init(path)[i..] + [Last(path)];
      i
  }

  /** `path` is `/v2/`, a name, `middle`, up to position `end`. */
  predicate NamedUpTo(path: string, middle: string, end: nat) {
    && |ROOT| + |middle| <= end <= |path|
    && path[..|ROOT|] == ROOT
    && path[end - |middle|..end] == middle
    && IsName(path[|ROOT|..end - |middle|])
  }

  function NameIn(path: string, middle: string, end: nat): string
    requires NamedUpTo(path, middle, end)
  {
    path[|ROOT|..end - |middle|]
  }

  /** The router. */
  function Dispatch(path: string): Route {
    var cut := LeafStart(path);
    if path == ROOT then Ping
    else if NamedUpTo(path, UPLOADS, |path|) then Upload
    else if cut < |path| && NamedUpTo(path, MANIFESTS, cut) then Manifest(NameIn(path, MANIFESTS, cut), path[cut..])
    else if cut < |path| && NamedUpTo(path, BLOBS, cut) then Blob(NameIn(path, BLOBS, cut), path[cut..])
    else NotFound
  }

  // ---------- uniqueness ----------

  /** A slash-free last part determines where it starts. */
  lemma LeafStartUnique(path: string, i: nat)
    requires 0 < i <= |path| && path[i - 1] == '/' && '/' !in path[i..]
    ensures LeafStart(path) == i
  {
    var j := LeafStart(path);
    forall p | j <= p < |path| ensures path[p] != '/' { assert path[p] == path[j..][p - j]; }
    forall p | i <= p < |path| ensures path[p] != '/' { assert path[p] == path[i..][p - i]; }
  }

  lemma PrintParts(name: string, middle: string, leaf: string)
    ensures var path, end := Print(name, middle, leaf), |ROOT| + |name| + |middle|;
            && |path| == end + |leaf|
            && path[..|ROOT|] == ROOT
            && path[|ROOT|..end - |middle|] == name
            && path[end - |middle|..end] == middle
            && path[end..] == leaf
  {
  }

  lemma MatchIsSplit(path: string, middle: string, name: string, leaf: string)
    requires middle != "" && Last(middle) == '/' && Matches(path, middle, name, leaf)
    ensures LeafStart(path) == |ROOT| + |name| + |middle| < |path|
    ensures NamedUpTo(path, middle, LeafStart(path)) && name == NameIn(path, middle, LeafStart(path))
    ensures leaf == path[LeafStart(path)..]
  {
    PrintParts(name, middle, leaf);
    var end := |ROOT| + |name| + |middle|;
    assert path[end - 1] == path[end - |middle|..end][|middle| - 1] == '/';
    LeafStartUnique(path, end);
  }

  lemma SplitPrints(path: string, middle: string, cut: nat)
    requires NamedUpTo(path, middle, cut)
    ensures path == Print(NameIn(path, middle, cut), middle, path[cut..])
    ensures IsName(NameIn(path, middle, cut))
  {
    hide IsName;
    SplitInFour(path, |ROOT|, cut - |middle|, cut);
  }

  lemma SplitIsMatch(path: string, middle: string)
    requires LeafStart(path) < |path| && NamedUpTo(path, middle, LeafStart(path))
    ensures Matches(path, middle, NameIn(path, middle, LeafStart(path)), path[LeafStart(path)..])
  {
    hide LeafStart, IsName, NamedUpTo, Print;
    SplitPrints(path, middle, LeafStart(path));
  }

  lemma SplitInFour(path: string, a: nat, b: nat, c: nat)
    requires a <= b <= c <= |path|
    ensures path == path[..a] + path[a..b] + path[b..c] + path[c..]
  {
    assert path[..c] == path[..b] + path[b..c] && path[..b] == path[..a] + path[a..b];
  }

  /** The computed split is the only match, so it does not matter which one a regex engine finds. */
  lemma MatchesIffSplit(path: string, middle: string, name: string, leaf: string)
    requires middle != "" && Last(middle) == '/'
    ensures Matches(path, middle, name, leaf)
            <==> LeafStart(path) < |path| && NamedUpTo(path, middle, LeafStart(path))
                 && name == NameIn(path, middle, LeafStart(path)) && leaf == path[LeafStart(path)..]
  {
    hide Matches, NamedUpTo;
    var cut := LeafStart(path);
    if Matches(path, middle, name, leaf) {
      MatchIsSplit(path, middle, name, leaf);
    }
    if cut < |path| && NamedUpTo(path, middle, cut) {
      SplitIsMatch(path, middle);
    }
  }

  lemma UploadIff(path: string)
    ensures NamedUpTo(path, UPLOADS, |path|) <==> exists name :: MatchesUpload(path, name)
  {
    if NamedUpTo(path, UPLOADS, |path|) {
      var name := NameIn(path, UPLOADS, |path|);
      assert path == path[..|ROOT|] + name + path[|path| - |UPLOADS|..];
      assert MatchesUpload(path, name);
    }
    if name :| MatchesUpload(path, name) {
      assert path[|ROOT|..|path| - |UPLOADS|] == name;
      assert path[|path| - |UPLOADS|..|path|] == UPLOADS;
    }
  }

  /** Before the leaf stands either `manifests` or `blobs`. */
  lemma ManifestIsNoBlob(path: string, end: nat)
    ensures !(NamedUpTo(path, MANIFESTS, end) && NamedUpTo(path, BLOBS, end))
  {
    hide NamedUpTo;
    if NamedUpTo(path, MANIFESTS, end) { BeforeLeaf(path, MANIFESTS, end); }
    if NamedUpTo(path, BLOBS, end) { BeforeLeaf(path, BLOBS, end); }
  }

  /** The third character from the end of `middle` stands in the path. */
  lemma BeforeLeaf(path: string, middle: string, end: nat)
    requires NamedUpTo(path, middle, end) && |middle| >= 3
    ensures 3 <= end <= |path| && path[end - 3] == middle[|middle| - 3]
  {
    assert path[end - |middle|..end][|middle| - 3] == path[end - 3];
  }

  /** A path that ends with a slash has no leaf. */
  lemma UploadHasNoLeaf(path: string)
    requires path == ROOT || NamedUpTo(path, UPLOADS, |path|)
    ensures LeafStart(path) == |path|
  {
    if path != ROOT {
      assert Last(path) == path[|path| - |UPLOADS|..|path|][|UPLOADS| - 1];
    }
  }

  /** No path fits two of the routes. */
  lemma RoutesExclusive(path: string, u: string, n: string, r: string, m: string, d: string)
    ensures !(MatchesUpload(path, u) && Matches(path, MANIFESTS, n, r))
    ensures !(MatchesUpload(path, u) && Matches(path, BLOBS, m, d))
    ensures !(Matches(path, MANIFESTS, n, r) && Matches(path, BLOBS, m, d))
    ensures path == ROOT ==> !MatchesUpload(path, u) && !Matches(path, MANIFESTS, n, r) && !Matches(path, BLOBS, m, d)
  {
    hide Matches, NamedUpTo, LeafStart;
    UploadIff(path);
    MatchesIffSplit(path, MANIFESTS, n, r);
    MatchesIffSplit(path, BLOBS, m, d);
    ManifestIsNoBlob(path, LeafStart(path));
    if path == ROOT || NamedUpTo(path, UPLOADS, |path|) { UploadHasNoLeaf(path); }
  }

  /** The router takes a route exactly when its pattern matches, with the groups of that match. */
  lemma DispatchIsMatch(path: string)
    ensures Dispatch(path) == Ping <==> path == ROOT
    ensures Dispatch(path) == Upload <==> exists name :: MatchesUpload(path, name)
    ensures forall n, r :: Dispatch(path) == Manifest(n, r) <==> Matches(path, MANIFESTS, n, r)
    ensures forall n, d :: Dispatch(path) == Blob(n, d) <==> Matches(path, BLOBS, n, d)
  {
    hide NamedUpTo, Matches, MatchesUpload, LeafStart;
    var cut := LeafStart(path);
    UploadIff(path);
    RootIsNoUpload(path);
    ManifestIsNoBlob(path, cut);
    if path == ROOT || NamedUpTo(path, UPLOADS, |path|) { UploadHasNoLeaf(path); }
    forall n, r
      ensures Matches(path, MANIFESTS, n, r) <==> Dispatch(path) == Manifest(n, r)
      ensures Matches(path, BLOBS, n, r) <==> Dispatch(path) == Blob(n, r)
    {
      MatchesIffSplit(path, MANIFESTS, n, r);
      MatchesIffSplit(path, BLOBS, n, r);
    }
  }

  lemma RootIsNoUpload(path: string)
    ensures !(path == ROOT && NamedUpTo(path, UPLOADS, |path|))
  {
  }

  // ---------- round trips ----------

  /** Printing a manifest or blob path and routing it gives the parts back, whatever the name contains. */
  lemma {:induction false} PrintThenDispatch(name: string, leaf: string)
    requires IsName(name) && IsLeaf(leaf)
    ensures Dispatch(Print(name, MANIFESTS, leaf)) == Manifest(name, leaf)
    ensures Dispatch(Print(name, BLOBS, leaf)) == Blob(name, leaf)
  {
    DispatchIsMatch(Print(name, MANIFESTS, leaf));
    DispatchIsMatch(Print(name, BLOBS, leaf));
    assert Matches(Print(name, MANIFESTS, leaf), MANIFESTS, name, leaf);
    assert Matches(Print(name, BLOBS, leaf), BLOBS, name, leaf);
  }

  /** The routes in full: every name and last part that the patterns admit is found. */
  lemma {:induction false} RoutesInFull(name: string, leaf: string)
    requires name != "" && '\n' !in name && leaf != "" && '/' !in leaf
    ensures Dispatch("/v2/") == Ping
    ensures Dispatch("/v2/" + name + "/manifests/" + leaf) == Manifest(name, leaf)
    ensures Dispatch("/v2/" + name + "/blobs/" + leaf) == Blob(name, leaf)
    ensures Dispatch("/v2/" + name + "/blobs/uploads/") == Upload
  {
    hide Dispatch;
    PrintThenDispatch(name, leaf);
    assert Print(name, MANIFESTS, leaf) == "/v2/" + name + "/manifests/" + leaf;
    assert Print(name, BLOBS, leaf) == "/v2/" + name + "/blobs/" + leaf;
    DispatchIsMatch("/v2/");
    DispatchIsMatch("/v2/" + name + "/blobs/uploads/");
    assert MatchesUpload("/v2/" + name + "/blobs/uploads/", name);
  }

  /** Nothing else is routed. */
  lemma {:induction false} RoutedPaths(path: string)
    ensures match Dispatch(path)
            case Ping => path == "/v2/"
            case Upload => exists name :: path == "/v2/" + name + "/blobs/uploads/" && name != "" && '\n' !in name
            case Manifest(name, leaf) =>
              path == "/v2/" + name + "/manifests/" + leaf && name != "" && '\n' !in name && leaf != "" && '/' !in leaf
            case Blob(name, leaf) =>
              path == "/v2/" + name + "/blobs/" + leaf && name != "" && '\n' !in name && leaf != "" && '/' !in leaf
            case NotFound => true
  {
    DispatchIsMatch(path);
    var r := Dispatch(path);
    match r
    case Manifest(name, leaf) => assert Matches(path, MANIFESTS, name, leaf);
    case Blob(name, leaf) => assert Matches(path, BLOBS, name, leaf);
    case Upload =>
      var name :| MatchesUpload(path, name);
      assert path == "/v2/" + name + "/blobs/uploads/";
    case _ =>
  }

  /** The registry an image name belongs to. */
  function DetectRegistry(name: string): string {
    if "ghcr/" <= name || "ghcr.io/" <= name then "ghcr" else "dockerhub"
  }

  /** Names under `ghcr/` or `ghcr.io/` belong to GHCR, all others to Docker Hub. */
  lemma DetectedRegistry(name: string)
    ensures DetectRegistry(name) == "ghcr" <==>
              exists rest :: name == "ghcr/" + rest || name == "ghcr.io/" + rest
    ensures DetectRegistry(name) == "ghcr" || DetectRegistry(name) == "dockerhub"
  {
    assert |"ghcr"| != |"dockerhub"|;
    if "ghcr/" <= name { assert name == "ghcr/" + name[5..]; }
    if "ghcr.io/" <= name { assert name == "ghcr.io/" + name[8..]; }
  }

  /** The URL a blob is fetched from. */
  function BlobUrl(nodeUrl: string, name: string, digest: string): string {
    nodeUrl + "/v2/" + name + "/blobs/" + digest
  }

  /** A blob request is forwarded to the node's URL followed by the path that came in. */
  lemma ForwardedUrl(path: string, nodeUrl: string)
    ensures Dispatch(path).Blob? ==> BlobUrl(nodeUrl, Dispatch(path).name, Dispatch(path).digest) == nodeUrl + path
  {
    DispatchIsMatch(path);
    if Dispatch(path).Blob? {
      var n, d := Dispatch(path).name, Dispatch(path).digest;
      assert Matches(path, BLOBS, n, d);
      assert BlobUrl(nodeUrl, n, d) == nodeUrl + Print(n, BLOBS, d);
    }
  }
}
