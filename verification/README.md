# mantl-api in Dafny

mantl-api installs packages on a cluster. It syncs package repositories into Consul, indexes the
stored packages and lays repositories over each other, computes a layered configuration for every
package, starts the app in Marathon, and tears it down again later. This project models four
connected parts of it and proves what each promises.

**Layered configuration.** A configuration is merged from the schema's defaults, mantl.json, the
user's and the API's configuration. Go's nested maps are mutable and `mergeConfig` stores sub-maps
by reference, so later merges write through maps that the shared API and user configurations also
hold. `ConfigHeap` gives these maps as heap objects; a map is only ever shared between places at
the same path, and that is the invariant (`Placed`) under which one merge has a closed form,
`Merged`, whatever the iteration order. `PackageDefinitions` holds the program on that heap, and
`ConfigRefinement` proves that the closed form denotes the tree merge, also where a merge writes
through maps of the API configuration. The transformers read the hosts from those maps while the
merge is writing them, so the closed form has what was read at each path as a parameter (`Envs`),
and a merge promises that every reading is the hosts at a moment before that value was written;
`LiveHosts` are the tree functions of such a merge, and those of `ConfigTree` and `ConfigSharing`
are their special case of one reading everywhere. `ConfigLaws` proves what each path of
a merged configuration holds. `ConfigSharing` says on trees what each call leaves of the API's and
the user's configuration, which maps they come to share, and exactly when nothing changes any
more. `Definitions` states the effect of each call for one definition, and `Requests` runs any
number of requests on the one API configuration of a process. `RewrittenSecret` is a run in which
repeated calls do change it, and `RewrittenHosts` one in which even the order of a merge's keys
shows, by the if-and-only-if of `ConfigOrder`. `Replacement` settles when replacing the ZooKeeper
placeholder twice is the same as replacing it once. `ConfigValues` says what single values become,
from the schema, the API's settings and the keys of a lookup alone.

**Znode deletion.** `Zookeeper` holds the recursive listing and the backwards deletion against a
server that refuses to delete a node with children. The same program is proved for an undisturbed
server (`quiet`) and for one where other clients create and delete nodes between any two calls
and any call may fail. `Paths` composes and splits path texts as Go's `path.Join` does.

**Repository store.** `Keys` has the key layout and its reader, `Sync` the sync protocol as a state
machine over any number of running, failing and crashing syncs, and `SyncProgram` the program,
which makes only writes of that protocol while others write in between. `Repositories` reads
the repositories back and overlays them, `Catalog` builds the three-level index, `Versions`
chooses versions, and `PackageIndex` reads the packages off the stored files; `TextOrder` relates the text order of printed numbers to their numeric order.

**Install and uninstall.** `Lifecycle` records the external calls of every uninstall request in one
shared trace; a request is only able to add calls that its protocol allows, and `UninstallSafe`
says what that means for any interleaving. `InstallLabels` and `Base64` connect what an install
writes to what an uninstall reads, and `Removal` follows the rendered uninstall.json through to
ZooKeeper's tree. `RequestQueue` is the watcher of install requests, over any number of ticks with
any `others` acting between them. Outcomes of external calls are parameters (`Outside`, `Outcome`,
`TickOutcome`) or nondeterministic choices, so every statement holds whatever they are.

Things the code does that a reader might not expect, and that are kept as they are:

- User and API configuration are merged only when there is a mantl.json.
- A sub-map that is copied whole is not transformed inside until a later merge goes through it.
- Version and repository indexes are compared as text in the catalog and in the version sort, so
  10 is not later than 9; `Versions.GreatestIsLatest` says exactly when the greatest number is the
  latest version. Repositories are sorted as numbers.
- A Marathon listing with a status other than 200 reads as no apps, so an uninstall answers 404.
- A layer that settles a path without a value there (a map, or a value above it) hides the layers
  below: a user's empty map over a mantl.json value hides the value and lets the default through
  (`ConfigLaws.DisagreementSkipsLayers`). `ConfigLaws.LayersAt` is the value for any four layers, and
  `ConfigLaws.LayerPrecedence` says exactly when the highest layer is the one shown.
- The current version depends on map iteration order exactly when two versions share the index that
  is chosen for it: the last supported one that some version has, or else the greatest
  (`Versions.CurrentUnique`, `Versions.IndexUnique`).
- A call can leave maps of the API configuration inside the user's, and the next call merges them
  into themselves. Two calls on a definition that shares nothing yet leave the API configuration as
  it was exactly when the maps so adopted are settled: every value in them is a fixed point of the
  transformers (`Requests.CallTwice`). The API configuration is one for the whole process; as long as
  each request adopts only settled maps, none changes it, and each sees one configuration throughout
  (`Requests.ServeAll`). A request that brings no map of the API's names has none adopted
  (`ConfigSharing.NothingAdopted`). For a request with an empty `mantl` map, and a mantl.json
  without one, all of the API configuration has to be settled (`ConfigSharing.MantlAdopted`):
  no text of it that the schema declares a string may hold the placeholder, unless the hosts are the
  placeholder, and its bool may be declared neither a string nor a number.
- The string transformer reads the hosts from the live API configuration. A merge that rewrites the
  hosts depends on the order of its keys exactly when another text that it copies holds the
  placeholder (`ConfigOrder.OrderMatters`), and a second call on a real API configuration is such a
  merge (`RewrittenHosts.CallInOrder`, `RewrittenHosts.OrderShows`).
- A sync never deletes: files that a source no longer has, and repositories no longer configured,
  stay in the store, and show in the overlay unless a source above them has the file
  (`Repositories.OverlayAfterSync`).
- A DCOS framework label that is present and empty overrides the definition's framework name, so the
  uninstall then shuts down no framework (`InstallLabels.InstallUninstallRoundTrip`).

## Model

| member | source | states |
|---|---|---|
| `Replacement.ReplacingTwice` | install/transformers.go:14-16 | replacing all occurrences twice equals replacing them once, for every text, if and only if the replacement is the placeholder or neither contains it, lies inside it, nor overlaps it at a boundary |
| `ConfigTree.PlaceholderUnbordered` | install/transformers.go:11 | no proper beginning of the placeholder is also its end, which the exact condition needs |
| `ConfigTree.TextTwice` | install/transformers.go:10-19 | the string transformer is idempotent on every text exactly when the hosts value is harmless |
| `ConfigTree.TransformTwice` | install/transformers.go:10-45 | a second pass of the transformers changes no accepted non-array value of any type, if and only if the hosts value is harmless |
| `Replacement.ReplaceFirst` | install/transformers.go:15 | up to the first placeholder the text is copied, then come the hosts, and then the rest is treated likewise |
| `ConfigValues.HostsAreIn` | install/transformers.go:13-17 | the text that comes out is the one that went in with every placeholder, from left to right, replaced by the hosts |
| `ConfigValues.TransformShows` | install/package.go:444-461 | what every kind of value becomes for every type: an array its marshalled text, an integer or number its formatted text, a string its text with the hosts put in, and anything else itself |
| `ConfigValues.DefaultAt` | install/package.go:165-177 | at and below a group with a default of its own, the defaults are that default transformed as a whole |
| `ConfigValues.NoDefaultAt` | install/package.go:165-177 | where no such group is at or above a path, no default has a value |
| `ConfigValues.DefaultLeaf` | install/package.go:168-174 | from the schema alone, the default layer has a value at a declared path exactly when the group there has a default that is no map, and it is that default, a string's with the hosts put in |
| `ConfigValues.DefaultInConfig` | install/package.go:250-268 | without a mantl.json, or where the layers above do not settle the path, the merged configuration shows the default |
| `ConfigValues.ApiLeaves` | install/install.go:35-58 | the value of the API configuration at every path, from the hosts and the Mesos settings |
| `ConfigValues.LookupFinds` | install/package.go:490-500 | a lookup stops at the value it comes to, and finds nothing where it ends at a map |
| `ConfigValues.LookupSkips` | install/package.go:490-500 | a key that the map it has come to lacks is passed over |
| `ConfigLaws.MergeLeaf` | install/package.go:463-483 | the complete law of a merge at every path: an override that decides the path wins, otherwise the base keeps its leaf, and the override's leaf is transformed exactly where the base had the enclosing map |
| `ConfigLaws.MergeDecides` | install/package.go:463-483 | a merged tree settles a path exactly when the override does, or the base does and no map of the override has replaced the value that settles it |
| `ConfigLaws.MergeHasParents` | install/package.go:463-483 | a merged tree has every map above a path exactly when the override does, or the base does and no value of the override is in the way |
| `ConfigLaws.LayersAt` | install/package.go:214-268 | the value of the merged configuration at every path, for any four layers: which layer shows, and which of the transformations its value has passed |
| `ConfigLaws.LayerPrecedence` | install/package.go:214-268 | the highest layer that has a leaf (API, user, mantl.json, default) is the one shown, if and only if no higher layer settles the path without a leaf, and its value is then shown up to the typed transformations |
| `ConfigLaws.AgreeingLayers` | install/package.go:214-268 | layers that agree on which paths are maps never bar each other, so the highest is shown |
| `ConfigLaws.DisagreementSkipsLayers` | install/package.go:250-268 | with any API configuration that an install builds, a user's empty map over a mantl.json value hides that value, the highest at its path, and lets the default below it through |
| `ConfigLaws.DefaultNormal` | install/package.go:165-177 | the defaults are in typed normal form and have a map for every property group |
| `ConfigLaws.MergeNormal` | install/package.go:463-483 | a merge into such a configuration keeps the typed normal form, whatever the override |
| `ConfigLaws.MergedConfigNormal` | install/package.go:250-268 | in the merged configuration no array survives at a declared path and every integer or number path holds a string, with or without a mantl.json |
| `ConfigSharing.SelfMerge` | install/package.go:463-483 | a configuration can be merged into itself without a failed type assertion and is unchanged by it, exactly when each value is accepted by and a fixed point of the transformers |
| `ConfigSharing.MergeAgain` | install/package.go:463-483 | a layer can be merged a second time and changes nothing, exactly when the maps that the first merge stored by reference are settled |
| `ConfigSharing.AbsorbMergeable` | install/package.go:240-241 | the user configuration as one call leaves it can be merged into the parsed mantl.json again |
| `ConfigSharing.OptionsAgain` | install/package.go:240-247 | the second call computes the same options, without a failed type assertion, exactly when the maps that the first call left in the user configuration are settled |
| `ConfigSharing.AdoptedOnce` | install/package.go:240-247 | a second call leaves no further map of the API's in the user configuration |
| `ConfigSharing.RewrittenSame` | install/package.go:243-244 | a merge leaves the API configuration as it is exactly when the values in the maps it shares are fixed points of the transformers |
| `ConfigSharing.LookupKept` | install/package.go:243-244 | it leaves the hosts as they are exactly when the value that their lookup ends at is a fixed point, or not in a shared map |
| `ConfigSharing.AdoptedFixed` | install/package.go:240-247 | the adopted maps are settled exactly when the next call trips no type assertion on them and keeps their values |
| `ConfigSharing.ApiConfigSettled` | install/install.go:35-58 | the API configuration that an install builds is settled if and only if no text of it that the schema declares a string holds the placeholder, unless the hosts are the placeholder, and its bool is declared neither a string nor a number |
| `ConfigHeap.OnlyReachableChange` | install/package.go:463-483 | a map that a merge changes is reachable from the configuration, at a path where the override has a map too |
| `ConfigHeap.SharedMapUnchanged` | install/package.go:474-478 | a map that both sides share is left alone exactly when each of its own values is a fixed point of the transformers there |
| `ConfigHeap.LookupDenotes` | install/package.go:490-500 | a lookup on the heap finds the value of the tree lookup, and never a map |
| `ConfigOrder.OrderMatters` | install/package.go:463-483 | where a merge copies hosts that hold the placeholder over themselves and a text over any other plain value, the two orders give the same heap if and only if the text does not hold the placeholder |
| `LiveHosts.MergeAlways` | install/transformers.go:10-19 | a merge during which the hosts are the same throughout is the plain tree merge |
| `LiveHosts.EndValue` | install/package.go:490-500 | the hosts that a merge leaves do not depend on what was read anywhere but at the hosts themselves |
| `LiveHosts.KeptWith` | install/package.go:243-244 | whatever the order of the copies, a merge keeps the API configuration exactly when the values in its shared maps are fixed points, and reads the same hosts throughout when the hosts are one |
| `LiveHosts.MergeableKinds` | install/package.go:463-483 | whether a merge trips a type assertion does not depend on what the transformers read |
| `ConfigRefinement.MergedDenotes` | install/package.go:463-483 | the heap after a merge denotes the tree merge of the two initial values, under any sharing and whatever was read at each path |
| `ConfigRefinement.RewrittenDenotes` | install/package.go:463-483 | what a merge makes of the override: the maps that the configuration shares with it are merged into themselves, and the others keep their contents |
| `ConfigRefinement.LookupMoment` | install/package.go:490-500 | at any moment of a merge a lookup in the override finds what it found before or what it finds afterwards, and what it found before as long as that value is not written |
| `ConfigRefinement.MergedMapAt` | install/package.go:463-483 | which map the configuration has at every path after a merge |
| `ConfigRefinement.OverrideMapAt` | install/package.go:463-483 | the override has the same map at every path as before |
| `ConfigRefinement.AbsorbDenotes` | install/package.go:240-244 | what the API merge leaves in a user configuration whose maps were taken over by reference |
| `ConfigRefinement.UserMapAfter` | install/package.go:243-244 | the user configuration holds an API map after a call exactly where it did before, or where the call adopts it |
| `ConfigRefinement.UserMerge` | install/package.go:240-241 | merging the user configuration into parsed options denotes the tree merge, changes no shared map, and takes over shared maps exactly where mantl.json has none |
| `ConfigRefinement.ApiMerge` | install/package.go:243-244 | merging the API configuration next denotes the tree merge, and leaves the API and user configurations and what they share as `Rewritten`, `Absorb` and `Adopted` say |
| `PackageDefinitions.PackageDefinition.GetConfigVal` | install/package.go:490-500 | the walk over nested maps finds the value of the heap lookup, skipping missing keys, and never a map |
| `PackageDefinitions.PackageDefinition.TransformedConfigValue` | install/package.go:444-461 | every accepted value becomes its typed transformation, with the hosts read from the live API configuration |
| `PackageDefinitions.PackageDefinition.MergeConfig` | install/package.go:463-483 | the heap afterwards is the closed form of the merge, for every iteration order and any sharing, the maps that the transformers read included: the value at each path is transformed with the hosts of a moment of this merge at which it was not yet written |
| `PackageDefinitions.PackageDefinition.MergeKey` | install/package.go:464-480 | one key of the override, in any order, takes the heap one step further to the closed form, reading the hosts as they are then |
| `PackageDefinitions.PackageDefinition.ApiReadings` | install/package.go:243-244 | the merge of the API configuration reads the hosts it starts with or those it leaves, and the former for the hosts themselves |
| `PackageDefinitions.PackageDefinition.CopyValue` | install/package.go:478 | one field is set to the value transformed with the hosts of that moment, a map by reference, and nothing else changes |
| `PackageDefinitions.PackageDefinition.DefaultConfig` | install/package.go:165-177 | the defaults, whose values `ConfigValues.DefaultLeaf` states, in fresh maps only |
| `PackageDefinitions.PackageDefinition.GroupDefault` | install/package.go:168-174 | a group contributes its own default transformed, the defaults of an object's groups, or nothing, in fresh maps |
| `PackageDefinitions.PackageDefinition.Options` | install/package.go:214-248 | the three layers merged in fresh maps, or the error or absence of mantl.json; and what is left of the API and user configurations and their sharing, also when the call rewrites the hosts it reads |
| `PackageDefinitions.PackageDefinition.MergeLayers` | install/package.go:240-244 | user then API configuration merged into the parsed mantl.json, with the exact effect on both |
| `PackageDefinitions.PackageDefinition.MergedConfig` | install/package.go:250-268 | each call returns a map that stands for the merged configuration of the four layers as they are at the call, and leaves of the API and user configurations, and of what they share, exactly what the definition says, settled or not, and whether or not it rewrites the hosts |
| `PackageDefinitions.PackageDefinition.MergeIntoDefaults` | install/package.go:265-267 | options merged into fresh defaults, leaving every older map alone |
| `PackageDefinitions.PackageDefinition.RenderTemplate` | install/package.go:293-311 | a template is rendered with the merged configuration of that moment |
| `PackageDefinitions.PackageDefinition.RenderTemplates` | install/package.go:270-276 | from a steady state any number of renderings on the same shared maps see the same configuration, and the API configuration never changes |
| `Definitions.Definition.HostsStayMeans` | install/package.go:250-268 | a call whose API merge keeps the hosts has the configuration and the effect of the plain tree functions |
| `Definitions.Definition.ConfigShape` | install/package.go:250-268 | whatever a call reads, its configuration has maps and plain values at the same paths |
| `Definitions.Definition.ConfigIs` | install/package.go:214-268 | there is a configuration unless config.json or mantl.json cannot be read, and without a mantl.json it is the defaults |
| `Definitions.Definition.SteadyAfter` | install/package.go:250-268 | in a steady state a call keeps the API configuration and the hosts, gives the same configuration again and leaves a steady state |
| `Definitions.Definition.SecondCall` | install/package.go:250-268 | on configurations that share nothing yet, the first call keeps the API configuration, and the second does, whatever it reads, if and only if the maps that the first adopts are settled |
| `Requests.NextDefinition` | install/package.go:372-380 | a definition for another request on the API maps that earlier requests left satisfies the invariant that the calls need, and shares nothing with them yet |
| `Requests.NewDefinition` | install/install.go:34-58 | a definition with fresh configurations of its own, as for the first request, satisfies that invariant, and the two share nothing |
| `Requests.ServeOne` | install/install.go:77-97 | a request that adopts only settled maps renders all its templates with one configuration and leaves the API configuration as it is |
| `Requests.ServeAll` | install/install.go:25-78 | any number of such requests, each with its own user configuration, on the one API configuration of the process: none changes it, and each sees its own single configuration, whatever came before |
| `Requests.Serve` | install/install.go:34-58 | the same from the API configuration that `NewInstall` builds |
| `Requests.CallOnce` | install/package.go:250-268 | the first call on a definition that shares nothing yet keeps the API configuration |
| `Requests.CallTwice` | install/package.go:250-268 | two calls on such a definition leave the API configuration as it was if and only if the maps that the first adopts are settled, whether or not the second rewrites the hosts |
| `ConfigSharing.MantlAdopted` | install/install.go:35-58 | for a request with an empty `mantl` map, and a mantl.json without one, that condition is that the whole API configuration is settled |
| `RewrittenSecret.RewriteSecret` | install/package.go:240-247 | two calls change the shared API configuration when the request has an empty `mantl` map and the Mesos secret, declared a string, holds the placeholder |
| `RewrittenHosts.MergeMantl` | install/package.go:463-483 | the API merge of such a second call, with its loop at `mantl` in either order: the closed form, and which hosts the copies of the hosts and of the secret read |
| `RewrittenHosts.CallInOrder` | install/package.go:240-244 | the API configuration that the merges of a second call leave, for each order of the two keys of `mantl` |
| `RewrittenHosts.OrderShows` | install/package.go:464 | when the hosts hold the placeholder without being it, the two orders leave the same API configuration if and only if the secret does not hold it |
| `Paths.SplitJoin` | install/catalog.go:176 | splitting a joined path at its slashes gives back its segments |
| `Paths.CleanLeavesOut` | install/source.go:107 | empty segments, dots, and a name followed by two dots stand for nothing in a joined path |
| `Paths.CleanAtStart` | install/source.go:107 | two dots at the start go above no root, and stay in a relative path |
| `Paths.LastOfPath` | install/repository.go:74-76 | the last segment of a key, with or without a trailing slash |
| `Paths.PathJoinRel` | zookeeper/zookeeper.go:66 | joining relative path texts composes the paths, an empty one included |
| `Paths.PathJoinAbs` | zookeeper/zookeeper.go:68 | joining an absolute and a relative path text composes the paths, at the root included |
| `Zookeeper.ZnodeTree` | zookeeper/zookeeper.go:58-75 | it fails exactly when the server refuses some listing, nested ones included, and then or otherwise deletes nothing and ends; undisturbed, it lists every proper descendant exactly once, parents before children |
| `Zookeeper.ChildTree` | zookeeper/zookeeper.go:65-72 | the same for one child and what is below it |
| `Zookeeper.NextIsChildless` | zookeeper/zookeeper.go:44-49 | going backwards through the listing, the next node is still there and nothing is left below it |
| `Zookeeper.AllListedIsSubtree` | zookeeper/zookeeper.go:44-51 | the listed nodes and the node itself are exactly its subtree |
| `Zookeeper.ZnodePath` | zookeeper/zookeeper.go:45 | the text deleted for a listed node is that node's path, except below the root, where it is no valid path |
| `Zookeeper.DeleteNode` | zookeeper/zookeeper.go:77-80 | a delete succeeds, undisturbed, exactly on a childless node that is there and not the root; what it deletes is at or below the given node |
| `Zookeeper.DeleteListed` | zookeeper/zookeeper.go:44-49 | undisturbed, each delete of the loop succeeds and the listed nodes are gone; disturbed, every deletion is legal and below the given node |
| `Zookeeper.DeleteTree` | zookeeper/zookeeper.go:37-56 | in any case a refused listing anywhere means failure and not one delete attempted, and otherwise a delete is attempted for each name listed and for the node itself, only nodes at or below the path go, and the tree stays parent-closed; undisturbed, the final tree is the initial one minus exactly the subtree, one deletion for each of its nodes |
| `Zookeeper.SubtreeSize` | zookeeper/zookeeper.go:44-51 | the listing and the node are the subtree, node for node |
| `Zookeeper.Delete` | zookeeper/zookeeper.go:20-30 | the same, undisturbed or not, for the path with its zk: prefix taken off |
| `Zookeeper.NamesNode` | zookeeper/zookeeper.go:27 | a text names a node exactly when it is its absolute path, or that after zk: |
| `Zookeeper.DeleteNamed` | zookeeper/zookeeper.go:20-30 | by either text, an undisturbed delete succeeds exactly when the node is there and not the root, and leaves the tree minus exactly its subtree |
| `Zookeeper.Server.Children` | zookeeper/zookeeper.go:59 | the server's answer: the names of a node's children at that moment, or a refusal, and both are counted |
| `Zookeeper.Server.Delete` | zookeeper/zookeeper.go:79 | the server's answer: only a childless node that is there is deleted, and nothing else |
| `Keys.DecRead` | install/repository.go:74-84 | reading a printed index gives it back, for every int, and a printed index is one path segment |
| `Keys.AtoiIs` | install/repository.go:74-84 | what is read as an index: digits with or without a sign when the number fits, and nothing else |
| `Keys.DigitsValueIs` | install/repository.go:74-84 | a text of digits is read as the number that prints as it, leading zeros aside |
| `Keys.ArtifactIs` | install/source.go:159-165 | an artifact is a file whose text ends in .json, and nothing else is |
| `Keys.RepoKeyIs` | install/source.go:130-136 | a repository key is its segments joined, and splits back into them |
| `Keys.RepoKeyInjective` | install/source.go:71 | keys of different repositories, or of different paths, never collide |
| `Keys.ExtOfFile` | install/source.go:159-165 | whether a file is an artifact does not depend on its directory |
| `Keys.BookkeepingDisjoint` | install/source.go:134-148 | `name` and `updated` never collide with an artifact of any repository, nor with each other |
| `Keys.FileKeyIs` | install/package.go:383-388 | the key that the overlay reads a definition file from is the key that a sync writes that file to |
| `Keys.FileKeySplits` | install/catalog.go:174-195 | a key built from repository, package, version index and file splits back into exactly those parts |
| `Sync.WriteGrows` | install/source.go:138-157 | a write of the protocol loses nothing that is stored and keeps the commit property |
| `Sync.EventWriteOk` | install/source.go:60-98 | every put of a running sync is such a write, the stamp only when the source is complete |
| `Sync.EventKeeps` | install/source.go:60-98 | every step of any sync, failed put or crash keeps the invariant and only adds to the store |
| `Sync.RunCommitted` | install/source.go:60-98 | in every state of every run of any number of syncs, an `updated` key stands for a completely stored source |
| `SyncProgram.Consul.Put` | install/source.go:150-157 | a write may be lost, applied or applied without an answer, between arbitrary writes of other syncs |
| `SyncProgram.SourceLastUpdated` | install/source.go:46-58 | a time is returned only for a stamped source, and for each one when reads work |
| `SyncProgram.AddSourceArtifact` | install/source.go:62-82 | an artifact is written under its key and any other file is passed over |
| `SyncProgram.SyncFiles` | install/source.go:62-82 | after a walk in any order every artifact is stored, and exactly the artifacts were sent |
| `SyncProgram.SetNameAndTimestamp` | install/source.go:138-148 | the name is sent before the stamp, and on success the source is complete and stamped |
| `SyncProgram.SyncTree` | install/source.go:60-98 | on success the source is complete and stamped, having sent each artifact once, the name, and the stamp last; it succeeds whenever writes do |
| `SyncProgram.SyncSource` | install/source.go:36-44 | the same for a directory or a clone; an unknown type is an error that writes nothing |
| `SyncProgram.SyncIfNeeded` | install/install.go:171-184 | an up-to-date source is left alone unless forced, and a forced one is sent completely |
| `SyncProgram.SyncSources` | install/install.go:169-187 | on success every source is completely stored and stamped, each file that ends in .json under its key, under interference; forced, each was sent completely; unforced on stamped sources, nothing is written |
| `SyncProgram.StoredMeans` | install/source.go:60-98 | what a complete and stamped source has in the store, file by file, with its name and a valid time |
| `SyncProgram.SentMeans` | install/source.go:62-82 | only files that end in .json are ever sent, each with its contents under its own key |
| `Repositories.RepositoryIndexes` | install/repository.go:67-88 | the numbers the listed keys end in, each as often as listed, in numeric order, others skipped |
| `Repositories.GetRepositories` | install/repository.go:33-65 | the repositories whose name can be read, each with the name stored under its index and an empty one if there is none, in numeric order |
| `Repositories.SourceFound` | install/repository.go:33-65 | after a sync every source's repository is found under the source's index and name |
| `Repositories.LayOver` | install/package.go:383-411 | each of the six files is replaced by a non-empty copy and kept otherwise |
| `Repositories.Overlay` | install/package.go:382-412 | each of the six files, by its own name, is what the last repository that has it stores, an unreadable or empty one not counting |
| `Repositories.SyncedCopy` | install/source.go:66-72 | in a synced store a repository has exactly its source's copy of an artifact, and none it does not have |
| `Repositories.SyncedIndexes` | install/repository.go:67-88 | after a sync the listed repositories are exactly the sources' indexes |
| `Repositories.FileFromSources` | README.md:202 | with all sources stored, whatever else is, a file is the non-empty copy of the source with the numerically highest index that has one, if and only if every stale copy lies below a source that has the file, stale copies with a source's text aside |
| `Repositories.OverlayAfterSync` | README.md:202 | the same for each of the six files as the program reads them |
| `Repositories.DefinitionFiles` | install/package.go:367-412 | the definition files read from any store are the overlay of its readable repositories, and after a sync those of the highest sources when no stale copy is on top |
| `Catalog.NewPackageCatalog` | install/catalog.go:163-200 | every nine-segment key has an entry by its seventh, third and eighth segments; every entry is the directory of the first listed key with these segments; and there is no empty level |
| `Catalog.DirAndFile` | install/catalog.go:193 | the directory of a key and its last segment are the key |
| `Catalog.FileFiled` | install/catalog.go:174-195 | a file that a sync stores has an entry by its package's name, its repository and its version index |
| `Catalog.EntryIsDirectory` | install/catalog.go:192-194 | that entry is what the keys of the package's files begin with |
| `PackageIndex.GetPackages` | install/package.go:326-333 | every package of the stored keys in name order, its versions those that its directories' package.json say, and supported where a directory of that index has a mantl.json |
| `PackageIndex.FilesSay` | install/catalog.go:58-128 | in terms of the stored files alone: a listed version is what a package.json under its index says, and is supported exactly when some repository stores a mantl.json under it |
| `PackageIndex.FileListed` | install/catalog.go:79-103 | every version that a stored package.json says is listed |
| `Catalog.VersionKeys` | install/catalog.go:38-48 | the entries of one repository, each once, in version order |
| `Catalog.PackageKeySlice` | install/catalog.go:31-49 | the entries of one package, each once, in lexicographic (repository, version) order |
| `Catalog.PackageKeys` | install/catalog.go:25-56 | the same for every package of the index and for no other |
| `Catalog.OneOrder` | install/catalog.go:25-56 | there is only one such list, so it does not depend on any iteration order |
| `Catalog.VersionIndexOfEntry` | install/catalog.go:148-151 | the version index read back from a package key is the one its key carries |
| `Catalog.CatalogVersionIndex` | install/catalog.go:148-151 | a package key found under a version index reads back as that index |
| `Versions.SortByMostRecent` | install/package.go:20-24 | every version once, greatest index first, as text |
| `TextOrder.DigitsOrder` | install/package.go:24 | the text order of any two printed numbers, by their leading digits |
| `TextOrder.SameLength` | install/package.go:24 | numbers with equally many digits are ordered as text as they are as numbers |
| `Versions.FindLatest` | install/package.go:115-123 | nothing exactly when there are no versions, otherwise one that no index exceeds |
| `Versions.GreatestIsLatest` | install/package.go:24 | for printed indexes the greatest number is the latest version if and only if every smaller one is at most its leading digits |
| `Versions.PaddedIsLatest` | install/package.go:24 | with equally many digits throughout, the greatest number is the latest version |
| `Versions.FindLatestSupported` | install/package.go:125-136 | the same among the supported versions |
| `Versions.GetPackageVersion` | install/package.go:106-113 | a version that matches the trimmed request up to case, exactly when there is one |
| `Versions.FindPackageVersion` | install/package.go:138-151 | nothing exactly when there are no versions; otherwise requested, current, greatest supported, greatest, in that order |
| `Versions.ResolvesMeans` | install/package.go:106-151 | version by version: the trimmed request up to case, or else the current version, or else a supported one that no supported index exceeds, or else one that no index exceeds |
| `Versions.CollectVersions` | install/catalog.go:67-104 | the retained versions and the supported indexes of a package's keys, in key order |
| `Versions.RetainedMeans` | install/catalog.go:79-103 | the retained versions are exactly those of the keys, each with the index of the last key that has it |
| `Versions.SupportedMeans` | install/catalog.go:73-77 | the supported indexes are exactly those of keys with a mantl.json |
| `Versions.LastMatchMeans` | install/catalog.go:108-115 | the matching index is that of the last key with a mantl.json that any retained version has |
| `Versions.MarkIndex` | install/catalog.go:109-114 | every version at a supported index is marked, and one of them becomes current if there is one |
| `Versions.IndexPackage` | install/catalog.go:64-124 | in terms of the keys alone: which versions there are, with which index, which are supported, and which is current |
| `Versions.PackagesIndex` | install/catalog.go:58-128 | every package of the catalog, in name order, each indexed from its own keys |
| `Versions.CurrentUnique` | install/catalog.go:108-122 | the current version does not depend on any iteration order if and only if at most one version has the chosen index; distinct indexes are enough |
| `Versions.IndexUnique` | install/catalog.go:58-128 | two results of indexing a package agree on its keys, versions and support in any case, and, for version strings that are not empty, on the current version in every order if and only if one version is chosen |
| `Versions.UnversionedIsSupported` | install/package.go:138-151 | a request without a version resolves to the current one, which is supported as soon as any is |
| `Lifecycle.FilterByPackageName` | install/install.go:256-266 | the apps with the package's name label, in order, no other |
| `Lifecycle.FilterById` | install/install.go:230-243 | the apps with the id, a missing leading slash added and a given one kept, in order, no other |
| `Lifecycle.MatchingMeans` | install/install.go:115-129 | an app matches a request exactly when it is listed with the requested name and, if an id is given, with that id, or with it after a slash if it has none |
| `Lifecycle.MatchingNext` | install/install.go:115-129 | the matches keep the order and multiplicity of the listing |
| `Lifecycle.FrameworkNameIs` | install/install.go:145-148 | the framework to stop is the package's label, the DCOS label where that is missing or empty, or none |
| `Lifecycle.FindInstalled` | install/install.go:115-129 | exactly the matching apps of Marathon's answer, none for a status other than 200, an error for a failed call |
| `Lifecycle.FindFrameworks` | mesos/mesos.go:122-143 | one framework for each id that a framework of that name, up to case, has |
| `Lifecycle.FindFramework` | mesos/mesos.go:145-159 | none exactly when none matches, one when all matches share an id, an error when two ids match |
| `Lifecycle.ShutdownFrameworkByName` | mesos/mesos.go:105-120 | it succeeds exactly when no framework matches, or all that match are one and its teardown succeeds; only that one is torn down |
| `Lifecycle.ClearedMeans` | install/install.go:209-213 | after undisturbed deletes of any paths, in any order and nested or not, the tree is the initial one minus exactly their subtrees, and still a tree |
| `Lifecycle.PostUninstall` | install/install.go:189-218 | deletes exactly the nodes marked `always`, in order, whatever comes of each, and none when the label cannot be read; undisturbed exactly their subtrees are gone, otherwise only childless nodes at or below them |
| `Lifecycle.AlwaysPathsMeans` | install/install.go:207-214 | the nodes to delete are exactly those marked `always`, each as often as it is marked |
| `Lifecycle.UninstallPackage` | install/install.go:131-167 | it succeeds exactly when the destroy does and the named framework, if any, is stopped; it stops at the first failure before the post-uninstall, and then ZooKeeper's tree is as it was |
| `Lifecycle.UninstallHandler` | api/api.go:138-176 | the status for every combination of outcomes, that anything is destroyed only for exactly one match, and that only a 204 deletes anything in ZooKeeper, and what |
| `Lifecycle.UninstallOne` | api/api.go:138-176 | a request that asks for one listed app only, by name or with its id, its leading slash left out or not, destroys exactly that app |
| `Lifecycle.MonitorMeans` | install/install.go:131-167 | calls that follow the protocol have exactly the shape that their phase says |
| `Lifecycle.UninstallSafe` | install/install.go:131-167 | in any interleaved trace a znode delete follows that request's successful destroy of its only match and its framework found inactive or shut down, and there is at most one destroy and one teardown, of a case-insensitive match |
| `InstallLabels.AddMantlLabels` | install/install.go:268-300 | every label after an install, one by one, those not written staying as they were; and those already written when the uninstall text cannot be rendered |
| `InstallLabels.InstallUninstallRoundTrip` | install/install.go:277-290 | the label written at install decodes to the rendered uninstall text, so the nodes deleted are exactly those marked `always` in it; and the package name and the framework name that an uninstall finds, in every case |
| `Removal.TreeAfter` | install/install.go:189-218 | for an app with the labels of an install, an undisturbed uninstall leaves exactly the nodes that are not at or below one that its uninstall.json marks `always` |
| `Removal.InstallAndUninstall` | install/install.go:268-282 | from the uninstall template on: what is rendered is written on the app, and an uninstall that finds that app alone answers 204 exactly when destroy and framework stop succeed; then, undisturbed, exactly the subtrees of the nodes marked `always` in the rendered text are gone |
| `Base64.RoundTrip` | install/install.go:193 | decoding gives back every encoded byte string, by the encoding of section 4 of RFC 4648 |
| `Base64.Alphabet` | install/install.go:281 | the alphabet by ranges: capital letters, small letters, digits, plus and slash |
| `Base64.EncodedValue` | install/install.go:281 | three bytes are the four characters of the same number, and missing ones are padded |
| `Base64.EncodeAppend` | install/install.go:281 | longer byte strings are encoded three bytes at a time |
| `Base64.DecodeDefined` | install/install.go:193 | what can be decoded: groups of four characters of the alphabet, only the last two of all padding |
| `Base64.StripAppend` | install/install.go:193 | line breaks, and only they, are left out before that |
| `RequestQueue.Daemon.CreateApp` | marathon/marathon.go:129-149 | a taken id is a conflict and starts nothing; otherwise the app is started or not, independent of the answer |
| `RequestQueue.Daemon.InstallFromKVPair` | install/consul_monitor.go:30-48 | the request is handled, then its delete attempted, whatever comes of the install; the app is started exactly when the value renders, the id is free and Marathon creates it |
| `RequestQueue.Daemon.OneTick` | install/consul_monitor.go:14-26 | every act of a tick, and its effect on store and apps: each handled key is a listed request key, its delete is attempted right after, an app is started only for it and only under an id free at that moment, and a failed listing changes nothing |
| `RequestQueue.Daemon.Watch` | install/consul_monitor.go:11-28 | over any number of ticks, each starts from what the others made of the end of the one before, does exactly that, and the last one's end is the final store and apps |
| `RequestQueue.RunKeepsIds` | marathon/marathon.go:143-148 | in a whole run no two apps ever have one id, before or after any tick, if it starts so and the others keep it so |
| `RequestQueue.RunHandles` | install/consul_monitor.go:21-26 | in every tick of a run that can list, every stored request key is handled exactly once, and no other key is |
| `RequestQueue.RunRemoves` | install/consul_monitor.go:31-36 | in every tick of a run the keys gone are exactly the stored request keys whose delete succeeded |
| `RequestQueue.RetriedUntilDeleted` | install/consul_monitor.go:30-48 | a request whose deletes fail stays stored and is handled again in every tick that can list, until a delete succeeds, if the others leave it |
| `RequestQueue.RequestOfName` | install/consul_monitor.go:21-36 | in terms of the requested name: its key is handled once by a tick that lists and finds it, and gone afterwards exactly if its delete succeeds |
| `RequestQueue.OtherKeysStay` | install/consul_monitor.go:22-25 | no other key is handled or removed, the bare prefix included |
| `RequestQueue.StartedApps` | install/consul_monitor.go:38-47 | a handled request starts the app that its value renders to exactly when that app's id is free and Marathon creates it |
| `RequestQueue.HandledOnce` | install/consul_monitor.go:21-26 | every stored request key other than the bare root is handled exactly once in a tick that can list, and no other key is |
| `RequestQueue.RemovedAre` | install/consul_monitor.go:31-36 | the keys gone after a tick are exactly the stored request keys whose delete succeeded, and no other value changes |
| `RequestQueue.TickKeepsIds` | marathon/marathon.go:143-148 | a tick never makes two apps of one id |

## Left out

- Transport to Consul, Vault, ZooKeeper, Marathon and Mesos, `main.go`, HTTP routing and framework listing: no hard invariant; only outcomes of calls remain.
- Mustache rendering and JSON parsing: uninterpreted functions (`render`, `mustache`, `parse`, `versionOf`); `Base64.RoundTrip` is exact, what the decoded text parses to is not modelled.
- Number formatting and array marshalling: uninterpreted text functions (`Formats`); marshalling an array of parsed JSON does not fail.
- ConfigTree.TransformTwice: excludes arrays, because their JSON text meets the host replacement only on the second pass.
- Ill-typed values: where the source panics on a type assertion, or on writing into the nil map that a mantl.json rendering to `null` gives, `Accepts`, `Mergeable` and `Ready` exclude the input.
- PackageDefinitions.PackageDefinition.MergeConfig: where a merge rewrites the hosts, any choice of moments is allowed that no value was written before; that the copies of one sub-map come one after the other is not stated.
- ConfigLaws.LayersAt: one reading of the hosts throughout, as in every call that keeps them; a call that rewrites them has the same maps and plain values at the same paths (`Definitions.Definition.ConfigShape`).
- Requests.ServeAll: requests come one after the other, and a request is its renderings, without the Marathon call between them.
- Array elements are immutable trees: nothing in the source writes through them.
- Schema type names and app label keys are datatypes with a case for any other name, not texts.
- Git cloning and the file walk: a source is a finite map from clean relative paths to contents, walked completely and without errors; a directory whose name ends in .json is not modelled.
- Zookeeper.ZnodeTree: other clients create only finitely many nodes during one listing, which is what makes it end; opening the connection is not modelled.
- Repositories.OverlayAfterSync: a stale copy that happens to have the text of a source's copy is left out of the only-if part.
- Overlapping uninstall requests are interleaved call by call; one znode delete in the trace stands for one `Zookeeper.Delete`.
- Removal.InstallAndUninstall: the text's encoding in bytes is an arbitrary function, and the load balancer setting a parameter.
- InstallLabels.InstallUninstallRoundTrip: assumes that the empty text is no JSON, and a decoded text of `null`, on which the source fails, counts as not parseable.
- RequestQueue.Daemon.OneTick: within a tick only the watcher changes the store and Marathon, and the others of `Watch` act between ticks; rendering a request into an app (`InstallPackage` up to the create call) is abstract.
- Versions.UnversionedIsSupported: for version strings that are trimmed, not empty and distinct up to case; folding and trimming are arbitrary functions otherwise.
- PackageIndex.FilesSay: for stores whose nine-segment keys are files of packages, the container depending on the name alone; `PackageIndex.GetPackages` holds for any.
- Package descriptions, tags and other metadata, `IsValid`, the load balancer lookup and the lookup of a package by name: only easy members.
