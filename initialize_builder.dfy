/**
 * The pipeline stage that starts a project from the configuration: it creates
 * the project descriptor, names it, hands it the partials and custom
 * settings, and adds one version, with its guide sets, per configured version.
 */
module InitializeBuilderFromConfig {
  import opened Wrappers

  // ---------------------------------------------------------------------------
  // The configuration, as far as this stage reads it
  // ---------------------------------------------------------------------------

  /** A configured source: where the files come from. */
  datatype Source = Source(dsn: string, paths: seq<string>)

  /** One entry of a version's `guides`. */
  datatype GuideConfig = GuideConfig(source: Source, output: string)

  /** One entry of `versions`; `guides` may be absent. */
  datatype VersionConfig = VersionConfig(number: string, guides: Option<seq<GuideConfig>>)

  /** The `phpdocumentor` section; each key may be absent. */
  datatype Section = Section(title: Option<string>, settings: Option<map<string, string>>,
                             versions: Option<seq<VersionConfig>>)

  /** The whole configuration; the `phpdocumentor` section may be absent. */
  datatype Configuration = Configuration(phpdocumentor: Option<Section>)

  // ---------------------------------------------------------------------------
  // What the stage builds
  // ---------------------------------------------------------------------------

  /** A guide set: a leading string (always empty here), its source and its output. */
  datatype GuideSetDescriptor = GuideSetDescriptor(inputFormat: string, source: Source, output: string)

  datatype VersionDescriptor = VersionDescriptor(number: string, documentationSets: seq<GuideSetDescriptor>)

  /** The project descriptor as the builder holds it. */
  datatype ProjectDescriptor = ProjectDescriptor(name: string, partials: map<string, string>,
                                                 customSettings: map<string, string>,
                                                 versions: seq<VersionDescriptor>)

  /** The builder calls this stage makes, for stating their order. */
  datatype BuilderCall = CreateProjectDescriptor | SetName | SetPartials | SetCustomSettings | AddVersion

  /** `$configuration['phpdocumentor']['title'] ?? ''`. */
  function Title(c: Configuration): (r: string)
    ensures c.phpdocumentor.Some? && c.phpdocumentor.value.title.Some? ==> r == c.phpdocumentor.value.title.value
    ensures c.phpdocumentor.None? || c.phpdocumentor.value.title.None? ==> r == ""
  {
    if c.phpdocumentor.Some? then c.phpdocumentor.value.title.GetOr("") else ""
  }

  /** `$configuration['phpdocumentor']['settings'] ?? []`. */
  function Settings(c: Configuration): (r: map<string, string>)
    ensures c.phpdocumentor.Some? && c.phpdocumentor.value.settings.Some? ==> r == c.phpdocumentor.value.settings.value
    ensures c.phpdocumentor.None? || c.phpdocumentor.value.settings.None? ==> r == map[]
  {
    if c.phpdocumentor.Some? then c.phpdocumentor.value.settings.GetOr(map[]) else map[]
  }

  /** `$configuration['phpdocumentor']['versions'] ?? []`. */
  function VersionConfigs(c: Configuration): (r: seq<VersionConfig>)
    ensures c.phpdocumentor.Some? && c.phpdocumentor.value.versions.Some? ==> r == c.phpdocumentor.value.versions.value
    ensures c.phpdocumentor.None? || c.phpdocumentor.value.versions.None? ==> r == []
  {
    if c.phpdocumentor.Some? then c.phpdocumentor.value.versions.GetOr([]) else []
  }

  /** One guide set per guide, in order, with an empty leading string and the
      guide's source and output. */
  function GuideSets(guides: seq<GuideConfig>): (r: seq<GuideSetDescriptor>)
    ensures |r| == |guides|
    ensures forall i :: 0 <= i < |guides| ==>
      r[i].inputFormat == "" && r[i].source == guides[i].source && r[i].output == guides[i].output
    decreases |guides|
  {
    if |guides| == 0 then []
    else GuideSets(guides[..|guides| - 1]) + [GuideSetDescriptor("", guides[|guides| - 1].source, guides[|guides| - 1].output)]
  }

  /** One version per configured version, in order, carrying its number and
      the guide sets of its guides (none when `guides` is absent). */
  function Versions(versions: seq<VersionConfig>): (r: seq<VersionDescriptor>)
    ensures |r| == |versions|
    ensures forall i :: 0 <= i < |versions| ==>
      r[i].number == versions[i].number && r[i].documentationSets == GuideSets(versions[i].guides.GetOr([]))
    decreases |versions|
  {
    if |versions| == 0 then []
    else
      var v := versions[|versions| - 1];
      Versions(versions[..|versions| - 1]) + [VersionDescriptor(v.number, GuideSets(v.guides.GetOr([])))]
  }

  /** The project the stage leaves in the builder. */
  function Initialized(c: Configuration, partials: map<string, string>): ProjectDescriptor
  {
    ProjectDescriptor(Title(c), partials, Settings(c), Versions(VersionConfigs(c)))
  }

  /** The call sequence: the project is created before anything else is
      set, then named, given its partials and its settings, and then handed
      one addVersion per configured version. */
  function CallsFor(versionCount: nat): (r: seq<BuilderCall>)
    ensures |r| == 4 + versionCount
    ensures r[0] == CreateProjectDescriptor
    ensures r[1] == SetName && r[2] == SetPartials && r[3] == SetCustomSettings
    ensures forall i :: 1 <= i < |r| ==> r[i] != CreateProjectDescriptor
    ensures forall i :: 4 <= i < |r| ==> r[i] == AddVersion
  {
    [CreateProjectDescriptor, SetName, SetPartials, SetCustomSettings] + seq(versionCount, _ => AddVersion)
  }

  /** One more configured version appends exactly its own descriptor. */
  lemma VersionsStep(versions: seq<VersionConfig>, i: nat)
    requires i < |versions|
    ensures Versions(versions[..i + 1])
            == Versions(versions[..i]) + [VersionDescriptor(versions[i].number, GuideSets(versions[i].guides.GetOr([])))]
  {
    assert versions[..i + 1][..i] == versions[..i];
  }

  /** Each further configured version adds exactly one addVersion at the end. */
  lemma CallsForStep(versionCount: nat)
    ensures CallsFor(versionCount + 1) == CallsFor(versionCount) + [AddVersion]
  {
    assert CallsFor(versionCount + 1)[..4 + versionCount] == CallsFor(versionCount);
  }

  /** A configuration without a `phpdocumentor` section yields an unnamed
      project with no settings and no versions. */
  lemma EmptyConfiguration(partials: map<string, string>)
    ensures Initialized(Configuration(None), partials) == ProjectDescriptor("", partials, map[], [])
  {
  }

  /** Versions distribute over concatenated configurations: each configured
      version is turned into its descriptor on its own. */
  lemma {:induction false} VersionsAppend(a: seq<VersionConfig>, b: seq<VersionConfig>)
    ensures Versions(a + b) == Versions(a) + Versions(b)
    decreases |b|
  {
    if |b| == 0 {
      assert a + b == a;
    } else {
      var b' := b[..|b| - 1];
      assert (a + b)[..|a + b| - 1] == a + b';
      VersionsAppend(a, b');
    }
  }

  // ---------------------------------------------------------------------------
  // The objects
  // ---------------------------------------------------------------------------

  /** The project descriptor builder: it holds the project under construction. */
  class ProjectDescriptorBuilder {
    var project: Option<ProjectDescriptor>
    ghost var calls: seq<BuilderCall>

    constructor ()
      ensures project == None && calls == []
    {
      project := None;
      calls := [];
    }

    /** Starts a fresh project; what it holds before the setters run is
        the builder's own business, so only its emptiness is fixed here. */
    method CreateProjectDescriptor()
      modifies this
      ensures project == Some(ProjectDescriptor("", map[], map[], []))
      ensures calls == old(calls) + [BuilderCall.CreateProjectDescriptor]
    {
      project := Some(ProjectDescriptor("", map[], map[], []));
      calls := calls + [BuilderCall.CreateProjectDescriptor];
    }

    method SetName(name: string)
      requires project.Some?
      modifies this
      ensures project == Some(old(project.value).(name := name))
      ensures calls == old(calls) + [BuilderCall.SetName]
    {
      project := Some(project.value.(name := name));
      calls := calls + [BuilderCall.SetName];
    }

    method SetPartials(partials: map<string, string>)
      requires project.Some?
      modifies this
      ensures project == Some(old(project.value).(partials := partials))
      ensures calls == old(calls) + [BuilderCall.SetPartials]
    {
      project := Some(project.value.(partials := partials));
      calls := calls + [BuilderCall.SetPartials];
    }

    method SetCustomSettings(settings: map<string, string>)
      requires project.Some?
      modifies this
      ensures project == Some(old(project.value).(customSettings := settings))
      ensures calls == old(calls) + [BuilderCall.SetCustomSettings]
    {
      project := Some(project.value.(customSettings := settings));
      calls := calls + [BuilderCall.SetCustomSettings];
    }

    /** Adds a version at the end of the project's versions. */
    method AddVersion(version: VersionDescriptor)
      requires project.Some?
      modifies this
      ensures project == Some(old(project.value).(versions := old(project.value.versions) + [version]))
      ensures calls == old(calls) + [BuilderCall.AddVersion]
    {
      project := Some(project.value.(versions := project.value.versions + [version]));
      calls := calls + [BuilderCall.AddVersion];
    }
  }

  /** The pipeline payload: the configuration and the builder. */
  class Payload {
    const config: Configuration
    const builder: ProjectDescriptorBuilder

    constructor (config: Configuration, builder: ProjectDescriptorBuilder)
      ensures this.config == config && this.builder == builder
    {
      this.config := config;
      this.builder := builder;
    }
  }

  /** The inner loop of the stage: a guide set per guide of one version, added
      to an initially empty collection. */
  method CollectGuideSets(guides: seq<GuideConfig>) returns (documentationSets: seq<GuideSetDescriptor>)
    ensures documentationSets == GuideSets(guides)
  {
    documentationSets := [];
    var j := 0;
    while j < |guides|
      invariant 0 <= j <= |guides|
      invariant documentationSets == GuideSets(guides[..j])
    {
      assert guides[..j + 1][..j] == guides[..j];
      documentationSets := documentationSets + [GuideSetDescriptor("", guides[j].source, guides[j].output)];
      j := j + 1;
    }
    assert guides[..j] == guides;
  }

  class InitializeBuilderFromConfig {
    const partials: map<string, string>

    constructor (partials: map<string, string>)
      ensures this.partials == partials
    {
      this.partials := partials;
    }

    /** InitializeBuilderFromConfig::__invoke: the same payload comes back,
        its builder holding the initialised project. */
    method Invoke(payload: Payload) returns (r: Payload)
      modifies payload.builder
      ensures r == payload
      ensures payload.builder.project == Some(Initialized(payload.config, partials))
      ensures payload.builder.calls == old(payload.builder.calls) + CallsFor(|VersionConfigs(payload.config)|)
    {
      var configuration := payload.config;
      var builder := payload.builder;
      ghost var start := builder.calls;
      builder.CreateProjectDescriptor();
      builder.SetName(Title(configuration));
      builder.SetPartials(partials);
      builder.SetCustomSettings(Settings(configuration));
      assert builder.calls == start + CallsFor(0);

      var versions := VersionConfigs(configuration);
      var i := 0;
      while i < |versions|
        invariant 0 <= i <= |versions|
        invariant builder.project == Some(ProjectDescriptor(Title(configuration), partials,
                                                            Settings(configuration), Versions(versions[..i])))
        invariant builder.calls == start + CallsFor(i)
      {
        var version := versions[i];
        var guides := version.guides.GetOr([]);
        var documentationSets := CollectGuideSets(guides);
        VersionsStep(versions, i);
        builder.AddVersion(VersionDescriptor(version.number, documentationSets));
        CallsForStep(i);
        i := i + 1;
      }
      assert versions[..i] == versions;
      r := payload;
    }
  }
}
