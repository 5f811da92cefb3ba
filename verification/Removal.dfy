/** From the uninstall template to ZooKeeper's tree: what an install renders and writes on the app is
    what an uninstall of that app reads, and what it deletes. */
module Removal {
  import opened Base64
  import opened ConfigTree
  import opened InstallLabels
  import opened PackageDefinitions
  import opened Paths
  import opened Wrappers
  import Lifecycle
  import Zookeeper

  /** `n` is at or below a node that uninstall.json marks `always`, other than the root. */
  ghost predicate Marked(nodes: seq<Lifecycle.Node>, n: Segs) {
    exists node, k | node in nodes && node.always :: Zookeeper.PathOf(node.path, k) && k != [] && k <= n
  }

  /** The answer is 204 exactly when the app is destroyed and its framework stopped; and then, undisturbed,
      exactly the subtrees of the marked nodes are gone. */
  ghost predicate AnswerMeans(status: int, uninstalls: bool, nodes: seq<Lifecycle.Node>, quiet: bool, t: Zookeeper.Tree, t': Zookeeper.Tree) {
    && (status == 204 <==> uninstalls)
    && (quiet && status == 204 ==> forall n :: n in t' <==> n in t && !Marked(nodes, n))
  }

  function NodesIn(lib: Lifecycle.Library, text: Bytes): seq<Lifecycle.Node> {
    match lib.parse(text) case None => [] case Some(nodes) => nodes
  }

  lemma CoveredMarked(nodes: seq<Lifecycle.Node>, n: Segs)
    ensures Lifecycle.Covered(Lifecycle.AlwaysPaths(nodes), n) <==> Marked(nodes, n)
  {
    Lifecycle.AlwaysPathsMeans(nodes);
    if Lifecycle.Covered(Lifecycle.AlwaysPaths(nodes), n) {
      var path :| path in Lifecycle.AlwaysPaths(nodes) && Lifecycle.Covers(path, n);
      var node :| node in nodes && node.always && node.path == path;
      Zookeeper.NamesNode(path, Zookeeper.Parse(Zookeeper.TrimPrefix(path, "zk:")).value);
      assert Marked(nodes, n);
    }
    if Marked(nodes, n) {
      var node, k :| node in nodes && node.always && Zookeeper.PathOf(node.path, k) && k != [] && k <= n;
      Zookeeper.NamesNode(node.path, k);
      assert Lifecycle.Covers(node.path, n);
      assert node.path in Lifecycle.AlwaysPaths(nodes);
    }
  }

  /** What an undisturbed uninstall of an installed app leaves of the tree. */
  lemma TreeAfter(lib: Lifecycle.Library, id: string, labels: Lifecycle.Labels, info: PackageLabels, t: Zookeeper.Tree)
    requires info.uninstallText.Some? && lib.parse([]).None? && Zookeeper.TreeOk(t)
    ensures var paths := Lifecycle.PathsToDelete(lib, Lifecycle.App(id, Installed(labels, info)));
            forall n :: n in Lifecycle.Cleared(t, paths) <==> n in t && !Marked(NodesIn(lib, info.uninstallText.value), n)
  {
    var nodes := NodesIn(lib, info.uninstallText.value);
    InstallUninstallRoundTrip(lib, id, labels, info);
    assert Lifecycle.AlwaysPaths([]) == [];
    Lifecycle.ClearedMeans(t, Lifecycle.AlwaysPaths(nodes));
    forall n ensures Lifecycle.Covered(Lifecycle.AlwaysPaths(nodes), n) <==> Marked(nodes, n) { CoveredMarked(nodes, n); }
  }

  /** `addMantlLabels` with the uninstall template rendered; `bytes` is the text's encoding. */
  method LabelApp(d: PackageDefinition, template: string, bytes: string -> Bytes, info: PackageLabels, app: MarathonApp,
                  ghost at: Json, ghost ut: Json)
    returns (text: Option<string>, ghost E: Envs)
    requires d.Valid(at, ut) && d.files.Ready(at, ut)
    modifies d.home.Keys, app`labels
    ensures d.files.During(E, at, ut, old(d.Shared()))
    ensures text == d.files.RenderedLeft(E, template, at, ut, old(d.Shared()))
    ensures text.Some? ==> app.labels == Installed(old(app.labels), info.(uninstallText := Some(bytes(text.value))))
  {
    text, E := d.RenderTemplate(template, at, ut);
    var ok := AddMantlLabels(app, info.(uninstallText := match text case None => None case Some(s) => Some(bytes(s))));
  }

  /** An install labels its app, and an uninstall finds that app alone.  It answers 204 exactly when the
      app is destroyed and its framework stopped; then, undisturbed, ZooKeeper's tree is the one before
      without exactly the subtrees of the nodes that the rendered uninstall.json marks `always`.  With any
      other answer nothing is deleted. */
  method InstallAndUninstall(d: PackageDefinition, template: string, bytes: string -> Bytes, info: PackageLabels, app: MarathonApp,
                             c: Lifecycle.Cluster, z: Zookeeper.Server, req: nat, request: Lifecycle.UninstallRequest,
                             outside: Lifecycle.Outside, ghost at: Json, ghost ut: Json)
    returns (text: Option<string>, status: int, ghost E: Envs)
    requires d.Valid(at, ut) && d.files.Ready(at, ut)
    requires Lifecycle.Own(c.trace, req) == [] && Zookeeper.TreeOk(z.nodes) && c.lib.parse([]).None?
    modifies d.home.Keys, app`labels, c`trace, z
    ensures d.files.During(E, at, ut, old(d.Shared()))
    ensures text == d.files.RenderedLeft(E, template, at, ut, old(d.Shared()))
    ensures text.Some? && Lifecycle.Matching(request.name, request.appId, outside.apps) == Some([Lifecycle.App(app.id, app.labels)]) ==>
              AnswerMeans(status, Lifecycle.Uninstalls(c.lib, Lifecycle.App(app.id, app.labels), outside),
                          NodesIn(c.lib, bytes(text.value)), z.quiet, old(z.nodes), z.nodes)
    ensures status != 204 ==> z.nodes == old(z.nodes) && z.deletions == old(z.deletions)
  {
    ghost var labels := app.labels;
    text, E := LabelApp(d, template, bytes, info, app, at, ut);
    if text.None? { return text, 0, E; }
    ghost var written := info.(uninstallText := Some(bytes(text.value)));
    status := UninstallInstalled(c, z, req, request, outside, app.id, labels, written);
  }

  /** The uninstall of an app with the labels of an install. */
  method UninstallInstalled(c: Lifecycle.Cluster, z: Zookeeper.Server, req: nat, request: Lifecycle.UninstallRequest,
                            outside: Lifecycle.Outside, ghost id: string, ghost labels: Lifecycle.Labels, ghost info: PackageLabels)
    returns (status: int)
    requires Lifecycle.Own(c.trace, req) == [] && Zookeeper.TreeOk(z.nodes) && c.lib.parse([]).None? && info.uninstallText.Some?
    modifies c`trace, z
    ensures Lifecycle.Matching(request.name, request.appId, outside.apps) == Some([Lifecycle.App(id, Installed(labels, info))]) ==>
              AnswerMeans(status, Lifecycle.Uninstalls(c.lib, Lifecycle.App(id, Installed(labels, info)), outside),
                          NodesIn(c.lib, info.uninstallText.value), z.quiet, old(z.nodes), z.nodes)
    ensures status != 204 ==> z.nodes == old(z.nodes) && z.deletions == old(z.deletions)
  {
    TreeAfter(c.lib, id, labels, info, z.nodes);
    ghost var ph;
    status, ph := Lifecycle.UninstallHandler(c, z, req, Some(request), outside);
  }
}
