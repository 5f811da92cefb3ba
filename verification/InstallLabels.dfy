/** The labels that an install writes on the app, and what an uninstall later reads from them. */
module InstallLabels {
  import opened Base64
  import opened Lifecycle
  import opened Wrappers

  /** What `addMantlLabels` takes from the package definition.  Rendering the uninstall template, or
      reading the load balancer setting, can fail. */
  datatype PackageLabels = PackageLabels(
    name: string, version: string, release: string, framework: bool, frameworkName: string,
    uninstallText: Option<Bytes>, loadBalancer: Option<string>)

  class MarathonApp {
    const id: string
    var labels: Labels

    constructor (id: string, labels: Labels)
      ensures this.id == id && this.labels == labels
    {
      this.id, this.labels := id, labels;
    }
  }

  function FormatBool(b: bool): string { if b then "true" else "false" }

  function WithPackage(labels: Labels, d: PackageLabels): Labels {
    labels[PackageName := d.name][PackageVersion := d.version][PackageIndex := d.release][IsFramework := FormatBool(d.framework)]
  }

  /** The labels after an install: the package's own, the encoded uninstall text, the framework name
      with DCOS_PACKAGE_FRAMEWORK_NAME taking precedence, and the load balancer switch. */
  function Installed(labels: Labels, d: PackageLabels): Labels
    requires d.uninstallText.Some?
  {
    var own := WithPackage(labels, d)[UninstallKey := Encode(d.uninstallText.value)];
    var named :=
      if DcosFrameworkName in labels then own[FrameworkNameKey := labels[DcosFrameworkName]]
      else if d.frameworkName != "" then own[FrameworkNameKey := d.frameworkName]
      else own;
    if d.loadBalancer.Some? then named[TraefikEnable := FormatBool(d.loadBalancer.value == "external")] else named
  }

  predicate HasLabel(r: Labels, k: LabelKey, text: string) { k in r && r[k] == text }

  predicate SameLabel(a: Labels, r: Labels, k: LabelKey) { (k in r <==> k in a) && (k in a ==> r[k] == a[k]) }

  /** The labels that every package gets. */
  predicate OwnLabels(r: Labels, d: PackageLabels) {
    && HasLabel(r, PackageName, d.name) && HasLabel(r, PackageVersion, d.version) && HasLabel(r, PackageIndex, d.release)
    && HasLabel(r, IsFramework, if d.framework then "true" else "false")
  }

  /** What an install makes of the labels `a`, label by label. */
  ghost predicate LabelledAs(a: Labels, r: Labels, d: PackageLabels)
    requires d.uninstallText.Some?
  {
    && OwnLabels(r, d) && HasLabel(r, UninstallKey, Encode(d.uninstallText.value))
    && (match d.loadBalancer
        case None => SameLabel(a, r, TraefikEnable)
        case Some(lb) => HasLabel(r, TraefikEnable, if lb == "external" then "true" else "false"))
    && (if DcosFrameworkName in a then HasLabel(r, FrameworkNameKey, a[DcosFrameworkName])
        else if d.frameworkName != "" then HasLabel(r, FrameworkNameKey, d.frameworkName)
        else SameLabel(a, r, FrameworkNameKey))
    && forall k | k !in {PackageName, PackageVersion, PackageIndex, IsFramework, UninstallKey, TraefikEnable, FrameworkNameKey} ::
         SameLabel(a, r, k)
  }

  /** `addMantlLabels` */
  method AddMantlLabels(app: MarathonApp, d: PackageLabels) returns (ok: bool)
    modifies app`labels
    ensures ok <==> d.uninstallText.Some?
    ensures app.labels == if ok then Installed(old(app.labels), d) else WithPackage(old(app.labels), d)
    ensures OwnLabels(app.labels, d) && (ok ==> LabelledAs(old(app.labels), app.labels, d))
  {
    ghost var before := app.labels;
    var labels := app.labels;
    labels := labels[PackageName := d.name];
    labels := labels[PackageVersion := d.version];
    labels := labels[PackageIndex := d.release];
    labels := labels[IsFramework := FormatBool(d.framework)];
    app.labels := labels;
    PackageLabelsOnly(before, d);
    if d.uninstallText.None? { return false; }
    labels := labels[UninstallKey := Encode(d.uninstallText.value)];
    if d.frameworkName != "" {
      labels := labels[FrameworkNameKey := d.frameworkName];
    }
    if DcosFrameworkName in labels {
      labels := labels[FrameworkNameKey := labels[DcosFrameworkName]];
    }
    if d.loadBalancer.Some? {
      labels := labels[TraefikEnable := FormatBool(d.loadBalancer.value == "external")];
    }
    app.labels := labels;
    InstalledLabels(before, d);
    ok := true;
  }

  /** The labels after an install, one by one. */
  lemma InstalledLabels(labels: Labels, d: PackageLabels)
    requires d.uninstallText.Some?
    ensures LabelledAs(labels, Installed(labels, d), d)
  {}

  /** The labels already written when the uninstall text cannot be rendered. */
  lemma PackageLabelsOnly(labels: Labels, d: PackageLabels)
    ensures OwnLabels(WithPackage(labels, d), d)
    ensures forall k | k !in {PackageName, PackageVersion, PackageIndex, IsFramework} :: SameLabel(labels, WithPackage(labels, d), k)
  {}

  /** What the uninstall of an installed app reads: the uninstall text byte for byte, so exactly the
      nodes that it marks `always`; the package name it is found by; and the framework to shut down.  A
      DCOS framework label wins even when it is empty, and then no framework is shut down. */
  lemma InstallUninstallRoundTrip(lib: Library, id: string, labels: Labels, d: PackageLabels)
    requires d.uninstallText.Some? && lib.parse([]).None?
    ensures var app := App(id, Installed(labels, d));
            && Decode(Label(app, UninstallKey)) == Some(d.uninstallText.value)
            && PathsToDelete(lib, app) == (match lib.parse(d.uninstallText.value)
                                           case None => []
                                           case Some(nodes) => AlwaysPaths(nodes))
            && Label(app, PackageName) == d.name
            && FrameworkName(app) == (if DcosFrameworkName in labels then labels[DcosFrameworkName]
                                      else if d.frameworkName != "" then d.frameworkName
                                      else Label(App(id, labels), FrameworkNameKey))
  {
    var app := App(id, Installed(labels, d));
    InstalledLabels(labels, d);
    RoundTrip(d.uninstallText.value);
    ReadBack(lib, app, d.uninstallText.value);
  }

  lemma ReadBack(lib: Library, app: App, text: Bytes)
    requires UninstallKey in app.labels && app.labels[UninstallKey] == Encode(text) && Decode(Encode(text)) == Some(text)
    requires (Encode(text) == "" <==> text == []) && lib.parse([]).None?
    ensures PathsToDelete(lib, app) == match lib.parse(text) case None => [] case Some(nodes) => AlwaysPaths(nodes)
  {}
}
