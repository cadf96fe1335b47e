/** A package manifest and the change a dependency patch plans for it. */
module DependencyManifest {
  import opened PlainObject
  import opened Wrappers

  type Specs = map<string, string>

  /** The root manifest: its dependency sections, its `pnpm` settings and everything else as one text. */
  datatype Manifest =
    Manifest(dependencies: Option<Specs>, devDependencies: Option<Specs>, pnpm: Option<Pnpm>, rest: string)

  datatype Pnpm = Pnpm(overrides: Option<Specs>, rest: string)

  datatype Section = Dependencies | DevDependencies

  /** What `section?.[name]` finds: nothing, a text, or something every object inherits. */
  datatype Found = Absent | Written(spec: string) | Inherited

  datatype Bump = Bump(section: Section, previous: Found, next: string)

  datatype Plan = Direct(section: Section, previous: Found, next: string) | Override(previous: Found, next: string)

  function SpecsOf(m: Manifest, section: Section): Option<Specs> {
    if section.Dependencies? then m.dependencies else m.devDependencies
  }

  function Overrides(m: Manifest): Option<Specs> {
    if m.pnpm.Some? then m.pnpm.value.overrides else None
  }

  function Lookup(specs: Option<Specs>, name: string): Found {
    if specs.None? then Absent
    else if name in specs.value then Written(specs.value[name])
    else if name in INHERITED then Inherited
    else Absent
  }

  /** JavaScript truth: an empty text counts as missing. */
  predicate IsThere(found: Found) {
    found.Inherited? || (found.Written? && found.spec != "")
  }

  /** The range operator that carries over. */
  function Operator(found: Found): string {
    if found.Written? && found.spec != "" && found.spec[0] in "^~" then [found.spec[0]] else ""
  }

  function BumpIn(m: Manifest, section: Section, name: string, version: string): Option<Bump> {
    var previous := Lookup(SpecsOf(m, section), name);
    if IsThere(previous) then Some(Bump(section, previous, Operator(previous) + version)) else None
  }

  /** The first section that has the package. */
  function BumpDependencySpec(m: Manifest, name: string, version: string): Option<Bump> {
    var first := BumpIn(m, Dependencies, name, version);
    if first.Some? then first else BumpIn(m, DevDependencies, name, version)
  }

  function PlanDependencyPatch(m: Manifest, name: string, version: string, allowOverride: bool): Option<Plan> {
    match BumpDependencySpec(m, name, version)
    case Some(b) => Some(Direct(b.section, b.previous, b.next))
    case None => if allowOverride then Some(Override(Lookup(Overrides(m), name), version)) else None
  }

  function OrEmpty(specs: Option<Specs>): Specs {
    if specs.Some? then specs.value else map[]
  }

  function ApplyPlanToPackage(m: Manifest, name: string, plan: Plan): Manifest {
    match plan
    case Direct(Dependencies, _, next) => m.(dependencies := Some(OrEmpty(m.dependencies)[name := next]))
    case Direct(DevDependencies, _, next) => m.(devDependencies := Some(OrEmpty(m.devDependencies)[name := next]))
    case Override(_, next) =>
      var rest := if m.pnpm.Some? then m.pnpm.value.rest else "";
      m.(pnpm := Some(Pnpm(Some(OrEmpty(Overrides(m))[name := next]), rest)))
  }

  // ---- What is planned ----

  predicate IsDeclared(m: Manifest, section: Section, name: string) {
    SpecsOf(m, section).Some? && name in SpecsOf(m, section).value && SpecsOf(m, section).value[name] != ""
  }

  /** An inherited name looks declared in any section that exists without it. */
  predicate LooksDeclared(m: Manifest, section: Section, name: string) {
    SpecsOf(m, section).Some? && name !in SpecsOf(m, section).value && name in INHERITED
  }

  /**
   * A patch is direct exactly for packages the manifest declares with some spec, save for the names that plain
   * objects inherit: those are taken for direct dependencies whenever a section exists that lacks them.
   */
  lemma DirectIff(m: Manifest, name: string, version: string, allowOverride: bool)
    ensures var plan := PlanDependencyPatch(m, name, version, allowOverride);
      && (plan.Some? && plan.value.Direct? <==>
        exists s :: IsDeclared(m, s, name) || LooksDeclared(m, s, name))
      && (plan.None? <==> !allowOverride && forall s :: !IsDeclared(m, s, name) && !LooksDeclared(m, s, name))
  {
    hide INHERITED;
    assert IsThere(Lookup(m.dependencies, name)) <==>
      IsDeclared(m, Dependencies, name) || LooksDeclared(m, Dependencies, name);
    assert IsThere(Lookup(m.devDependencies, name)) <==>
      IsDeclared(m, DevDependencies, name) || LooksDeclared(m, DevDependencies, name);
  }

  /** A package called `constructor` is patched as a direct dependency of a manifest that declares none. */
  lemma InheritedNameIsDirect()
    ensures PlanDependencyPatch(Manifest(Some(map[]), None, None, ""), "constructor", "1.0.0", false) ==
      Some(Direct(Dependencies, Inherited, "1.0.0"))
  {
    assert Operator(Inherited) + "1.0.0" == "1.0.0";
  }

  /** The new spec is the version behind the old spec's range operator, and runtime dependencies go first. */
  lemma DirectKeepsTheOperator(m: Manifest, name: string, version: string)
    requires IsDeclared(m, Dependencies, name) || IsDeclared(m, DevDependencies, name)
    requires name !in INHERITED
    ensures var section := if IsDeclared(m, Dependencies, name) then Dependencies else DevDependencies;
      var spec := SpecsOf(m, section).value[name];
      BumpDependencySpec(m, name, version) == Some(Bump(section, Written(spec),
        if spec[0] == '^' || spec[0] == '~' then [spec[0]] + version else version))
  {
    hide INHERITED;
    assert "" + version == version;
  }

  // ---- What is changed ----

  /** Two sections hold the same specs for every other package. */
  ghost predicate SameBut(a: Option<Specs>, b: Option<Specs>, name: string) {
    OrEmpty(a) - {name} == OrEmpty(b) - {name} && (a.Some? ==> b.Some?)
  }

  /** The manifests differ at most in the spec of one package in one place. */
  ghost predicate DiffersOnlyAt(a: Manifest, b: Manifest, name: string, plan: Plan) {
    && b.rest == a.rest
    && (if plan.Direct? && plan.section.Dependencies? then SameBut(a.dependencies, b.dependencies, name)
      else b.dependencies == a.dependencies)
    && (if plan.Direct? && plan.section.DevDependencies? then SameBut(a.devDependencies, b.devDependencies, name)
      else b.devDependencies == a.devDependencies)
    && (if plan.Override? then SameBut(Overrides(a), Overrides(b), name) && (a.pnpm.Some? ==>
        b.pnpm.Some? && b.pnpm.value.rest == a.pnpm.value.rest)
      else b.pnpm == a.pnpm)
  }

  function TargetIn(m: Manifest, plan: Plan): Option<Specs> {
    if plan.Override? then Overrides(m) else SpecsOf(m, plan.section)
  }

  lemma UpdateChangesOnlyOne(specs: Specs, name: string, next: string)
    ensures specs[name := next] - {name} == specs - {name}
  {
    var a, b := specs[name := next] - {name}, specs - {name};
    assert a.Keys == b.Keys;
    assert forall k :: k in a ==> a[k] == b[k];
  }

  /** Applying a plan sets the target package's spec and leaves the rest of the manifest as it was. */
  lemma PatchChangesOnlyTheTarget(m: Manifest, name: string, plan: Plan)
    ensures var patched := ApplyPlanToPackage(m, name, plan);
      && DiffersOnlyAt(m, patched, name, plan)
      && TargetIn(patched, plan).Some? && name in TargetIn(patched, plan).value
      && TargetIn(patched, plan).value[name] == plan.next
  {
    UpdateChangesOnlyOne(OrEmpty(TargetIn(m, plan)), name, plan.next);
  }
}
