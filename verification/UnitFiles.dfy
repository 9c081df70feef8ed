/** From unit files to units: templates, instances and specifiers
    (app/libsystemd/src/serviceapi.c:2271-2338, 2421-2476, 2520-2577, 2674-2731, 4257-4310, 4367-4467).

    The dmini parser and the directory walk are not part of this model. A disk says what each file parses to, and a
    directory tree is given as the entries in the order in which the walk meets them. */
module UnitFiles {
  import opened Wrappers
  import opened Services
  import opened UnitNames
  import Expansion
  import Tokenizer

  /** The global section of a parsed file. Setting a key that is present replaces its value. */
  type Ini = map<string, string>

  datatype Entry = Entry(dir: string, name: string)

  /** The files that can be read and parsed. */
  type Disk = map<Entry, Ini>

  datatype Error = NoExec | Unreadable

  datatype Result<+T> = Ok(value: T) | Err(error: Error)

  datatype TemplateRef = TemplateRef(prefix: string, dir: string, source: Option<string>)

  // ---------------------------------------------------------------------------------------------------------------
  // Specifiers in every key
  // ---------------------------------------------------------------------------------------------------------------

  function Get(ctx: Ini, key: string, default: string): string {
    if key in ctx then ctx[key] else default
  }

  function ExpandKeys(ctx: Ini, env: Expansion.Env): Ini {
    map k | k in ctx :: Expansion.Expand(ctx[k], env)
  }

  function ExpandMount(ctx: Ini, source: Option<string>): Ini {
    map k | k in ctx :: Expansion.ReplaceAll(ctx[k], "%m", Expansion.MountText(source))
  }

  /** libsystemd_apply_specifiers: every key in turn, values without % left alone. Keys of a context are distinct. */
  method ApplySpecifiers(ctx: Ini, keys: seq<string>, env: Expansion.Env) returns (r: Ini)
    requires forall i, j :: 0 <= i < j < |keys| ==> keys[i] != keys[j]
    requires forall k :: k in keys <==> k in ctx
    ensures r == ExpandKeys(ctx, env)
  {
    r := ctx;
    for i := 0 to |keys|
      invariant r.Keys == ctx.Keys
      invariant forall j :: 0 <= j < i ==> r[keys[j]] == Expansion.Expand(ctx[keys[j]], env)
      invariant forall j :: i <= j < |keys| ==> r[keys[j]] == ctx[keys[j]]
    {
      var value := r[keys[i]];
      if '%' in value {
        var expanded := Expansion.SubstituteSpecifiers(value, env);
        r := r[keys[i] := expanded[..expanded.Length - 1]];
      } else {
        Expansion.ExpandPlain(value, env);
      }
    }
    forall k | k in ctx ensures r[k] == Expansion.Expand(ctx[k], env) {
      var j :| 0 <= j < |keys| && keys[j] == k;
    }
  }

  // ---------------------------------------------------------------------------------------------------------------
  // One unit
  // ---------------------------------------------------------------------------------------------------------------

  function ParseType(value: string): UnitType {
    if value == "oneshot" then Oneshot else if value == "library" then Library else Simple
  }

  function ParseRestart(value: string): RestartPolicy {
    if value == "always" then Always else if value == "on-failure" then OnFailure else Never
  }

  /** libsystemd_build_service_from_ctx, with the name and the source that its callers fill in. */
  function BuildUnit(ctx: Ini, name: string, fromTemplate: bool, source: Option<string>): Result<Unit> {
    if "exec" !in ctx then Err(NoExec)
    else
      Ok(Unit(
           name,
           ParseType(Get(ctx, "type", "simple")),
           ParseRestart(Get(ctx, "restart", "no")),
           fromTemplate,
           ctx["exec"],
           [ctx["exec"]] + Tokenizer.Tokens(Get(ctx, "args", ""), Tokenizer.ARG_SEPARATORS),
           Tokenizer.Tokens(Get(ctx, "requires", ""), Tokenizer.NAME_SEPARATORS),
           Tokenizer.Tokens(Get(ctx, "after", ""), Tokenizer.NAME_SEPARATORS),
           source))
  }

  function InstanceEnv(prefix: string, instance: string, userValue: Option<string>,
                       source: Option<string>): Expansion.Env
  {
    Expansion.Env(prefix, instance, BuildUnitName(prefix, instance), userValue, source)
  }

  /** The keys an instance on demand is built from. */
  function InstanceKeys(disk: Disk, template: TemplateRef, instance: string, userValue: Option<string>): Ini
    requires Entry(template.dir, TemplateFileName(template.prefix)) in disk
  {
    ExpandKeys(disk[Entry(template.dir, TemplateFileName(template.prefix))],
               InstanceEnv(template.prefix, instance, userValue, template.source))
  }

  /** libsystemd_instantiate_from_template: a unit with no file of its own. */
  function Instantiate(disk: Disk, template: TemplateRef, instance: string, userValue: Option<string>): Result<Unit> {
    var file := Entry(template.dir, TemplateFileName(template.prefix));
    if file !in disk then Err(Unreadable)
    else
      var keys := InstanceKeys(disk, template, instance, userValue);
      BuildUnit(keys, BuildUnitName(template.prefix, instance), true, template.source)
  }

  /** The keys a unit file is built from: an instance is laid over its template, if there is one in the same
      directory; a plain unit has only %m expanded. */
  function FileKeys(disk: Disk, entry: Entry, source: Option<string>): Ini
    requires HasIniExtension(entry.name) && entry in disk
  {
    match Classify(entry.name)
    case Instance(prefix, instance) =>
      var template := Entry(entry.dir, TemplateFileName(prefix));
      var merged := (if template in disk then disk[template] else map[]) + disk[entry];
      ExpandKeys(merged, InstanceEnv(prefix, instance, None, source))
    case _ => ExpandMount(disk[entry], source)
  }

  /** libsystemd_parse_unit_internal for one file of a directory. */
  function ParseUnitFile(disk: Disk, entry: Entry, source: Option<string>): Result<Unit>
    requires HasIniExtension(entry.name)
  {
    if entry !in disk then Err(Unreadable)
    else
      BuildUnit(FileKeys(disk, entry, source), MakeUnitName(entry.name), false, source)
  }

  // ---------------------------------------------------------------------------------------------------------------
  // What is read is what is written
  // ---------------------------------------------------------------------------------------------------------------

  /** A key that lists exactly these tokens, spaced in any way, or that is absent if there are none. */
  ghost predicate Lists(ctx: Ini, key: string, tokens: seq<string>, seps: set<char>) {
    if key in ctx then exists gaps :: Tokenizer.Spaced(gaps, tokens, seps) && Tokenizer.Weave(gaps, tokens) == ctx[key]
    else tokens == []
  }

  predicate Says(ctx: Ini, key: string, value: string) {
    key in ctx && ctx[key] == value
  }

  ghost predicate WritesArguments(ctx: Ini, exec: string, argv: seq<string>) {
    argv != [] && argv[0] == exec && Lists(ctx, "args", argv[1..], {' ', '\t'})
  }

  predicate WritesType(ctx: Ini, unitType: UnitType) {
    match unitType
    case Oneshot => Says(ctx, "type", "oneshot")
    case Library => Says(ctx, "type", "library")
    case Simple => !Says(ctx, "type", "oneshot") && !Says(ctx, "type", "library")
  }

  predicate WritesPolicy(ctx: Ini, policy: RestartPolicy) {
    match policy
    case Always => Says(ctx, "restart", "always")
    case OnFailure => Says(ctx, "restart", "on-failure")
    case Never => !Says(ctx, "restart", "always") && !Says(ctx, "restart", "on-failure")
  }

  /** The documented spelling of a unit's configuration. Unknown types and policies, and absent ones, are the
      defaults. */
  ghost predicate Writes(ctx: Ini, unit: Unit) {
    && Says(ctx, "exec", unit.exec)
    && WritesArguments(ctx, unit.exec, unit.argv)
    && Lists(ctx, "requires", unit.required, {' ', '\t', ','})
    && Lists(ctx, "after", unit.after, {' ', '\t', ','})
    && WritesType(ctx, unit.unitType)
    && WritesPolicy(ctx, unit.restart)
  }

  /** Reading a list finds exactly the tokens that are written. */
  lemma ListsIffRead(ctx: Ini, key: string, tokens: seq<string>)
    ensures Lists(ctx, key, tokens, {' ', '\t'})
       <==> Tokenizer.Tokens(Get(ctx, key, ""), Tokenizer.ARG_SEPARATORS) == tokens
    ensures Lists(ctx, key, tokens, {' ', '\t', ','})
       <==> Tokenizer.Tokens(Get(ctx, key, ""), Tokenizer.NAME_SEPARATORS) == tokens
  {
    if key in ctx {
      forall gaps {
        Tokenizer.SeparatorsAre(gaps, tokens);
      }
      var byBlanks := Tokenizer.TextIsWeave(ctx[key], Tokenizer.ARG_SEPARATORS);
      var byCommas := Tokenizer.TextIsWeave(ctx[key], Tokenizer.NAME_SEPARATORS);
    }
  }

  lemma ArgumentsIffRead(ctx: Ini, exec: string, argv: seq<string>)
    ensures WritesArguments(ctx, exec, argv)
       <==> argv == [exec] + Tokenizer.Tokens(Get(ctx, "args", ""), Tokenizer.ARG_SEPARATORS)
  {
    if argv != [] {
      ListsIffRead(ctx, "args", argv[1..]);
      assert argv == [argv[0]] + argv[1..];
    }
  }

  /** Exactly the documented words name a type and a policy. */
  lemma WordsAreRead(ctx: Ini, unitType: UnitType, policy: RestartPolicy)
    ensures ParseType(Get(ctx, "type", "simple")) == unitType <==> WritesType(ctx, unitType)
    ensures ParseRestart(Get(ctx, "restart", "no")) == policy <==> WritesPolicy(ctx, policy)
  {
    assert "simple"[0] != "oneshot"[0] && "simple"[0] != "library"[0];
    assert "no"[0] != "always"[0] && "no"[0] != "on-failure"[0];
    assert "oneshot"[0] != "library"[0] && "always"[0] != "on-failure"[0];
  }

  /** The unit that is built from a file's keys is the one that they write, and there is one whenever there is an
      "exec" key. */
  lemma BuildReadsWhatIsWritten(ctx: Ini, unit: Unit)
    ensures BuildUnit(ctx, unit.name, unit.fromTemplate, unit.source) == Ok(unit) <==> Writes(ctx, unit)
    ensures BuildUnit(ctx, unit.name, unit.fromTemplate, unit.source).Ok? <==> "exec" in ctx
  {
    ArgumentsIffRead(ctx, unit.exec, unit.argv);
    ListsIffRead(ctx, "requires", unit.required);
    ListsIffRead(ctx, "after", unit.after);
    WordsAreRead(ctx, unit.unitType, unit.restart);
  }

  /** So a unit on demand is what its template's keys write once expanded, and the unit of a file what the keys of the
      file write. */
  lemma UnitsReadTheirKeys(disk: Disk, template: TemplateRef, instance: string, userValue: Option<string>, entry: Entry,
                           source: Option<string>, unit: Unit)
    ensures Instantiate(disk, template, instance, userValue) == Ok(unit)
       <==> && Entry(template.dir, TemplateFileName(template.prefix)) in disk
            && Writes(InstanceKeys(disk, template, instance, userValue), unit)
            && unit.name == BuildUnitName(template.prefix, instance) && unit.fromTemplate
            && unit.source == template.source
    ensures HasIniExtension(entry.name) ==>
              (ParseUnitFile(disk, entry, source) == Ok(unit)
               <==> && entry in disk && Writes(FileKeys(disk, entry, source), unit)
                    && unit.name == MakeUnitName(entry.name) && !unit.fromTemplate && unit.source == source)
  {
    if Entry(template.dir, TemplateFileName(template.prefix)) in disk {
      BuildReadsWhatIsWritten(InstanceKeys(disk, template, instance, userValue), unit);
    }
    if HasIniExtension(entry.name) && entry in disk {
      BuildReadsWhatIsWritten(FileKeys(disk, entry, source), unit);
    }
  }

  /** The text has one specifier between two others that are taken literally. */
  predicate Reads(raw: string, a: string, specifier: string, b: string) {
    raw == Expansion.Escape(a) + specifier + Expansion.Escape(b)
  }

  /** What the specifiers of a template's keys become in an instance on demand. */
  lemma InstanceSpecifiers(disk: Disk, template: TemplateRef, instance: string, userValue: Option<string>, key: string,
                           a: string, b: string)
    requires Entry(template.dir, TemplateFileName(template.prefix)) in disk
    requires key in disk[Entry(template.dir, TemplateFileName(template.prefix))]
    ensures InstanceKeys(disk, template, instance, userValue).Keys
         == disk[Entry(template.dir, TemplateFileName(template.prefix))].Keys
    ensures var raw := disk[Entry(template.dir, TemplateFileName(template.prefix))][key];
            var text := InstanceKeys(disk, template, instance, userValue)[key];
            && (Reads(raw, a, "%i", b) || Reads(raw, a, "%I", b) ==> text == a + instance + b)
            && (Reads(raw, a, "%p", b) ==> text == a + template.prefix + b)
            && (Reads(raw, a, "%n", b) ==> text == a + (template.prefix + "@" + instance) + b)
            && (Reads(raw, a, "%v", b) ==> text == a + userValue.GetOr("") + b)
            && (Reads(raw, a, "%m", b) ==> text == a + Expansion.TrimSlashes(template.source.GetOr("")) + b)
  {
    Expansion.SpecifiersStandFor(a, b, InstanceEnv(template.prefix, instance, userValue, template.source));
  }

  /** A unit that is no instance has only its mount point filled in, between texts without %m. */
  lemma PlainUnitKeys(disk: Disk, entry: Entry, source: Option<string>, key: string, a: string, b: string)
    requires HasIniExtension(entry.name) && entry in disk && !Classify(entry.name).Instance? && key in disk[entry]
    requires !Expansion.Contains(a, "%m") && !Expansion.Contains(b, "%m")
    ensures FileKeys(disk, entry, source).Keys == disk[entry].Keys
    ensures disk[entry][key] == a + "%m" + b
        ==> FileKeys(disk, entry, source)[key] == a + Expansion.TrimSlashes(source.GetOr("")) + b
    ensures disk[entry][key] == a ==> FileKeys(disk, entry, source)[key] == a
  {
    var mount := Expansion.TrimSlashes(source.GetOr(""));
    Expansion.ReplaceFreeThenToken(a, "%m", b, mount);
    Expansion.ReplaceFree(a, "%m", mount);
    Expansion.ReplaceFree(b, "%m", mount);
  }

  // ---------------------------------------------------------------------------------------------------------------
  // Two ways to an instance
  // ---------------------------------------------------------------------------------------------------------------

  /** Each key of flat is what the instance says, or else what its template says. */
  ghost predicate Flattens(flat: Ini, disk: Disk, entry: Entry, template: Entry)
    requires entry in disk
  {
    && (forall k :: k in flat <==> k in disk[entry] || (template in disk && k in disk[template]))
    && (forall k :: k in flat ==>
          if k in disk[entry] then flat[k] == disk[entry][k]
          else template in disk && k in disk[template] && flat[k] == disk[template][k])
  }

  /** An instance laid over its template is the instance with every key written out and no template: a key of the
      instance wins, every other key is inherited, and a missing template is no error. */
  lemma InstanceOverTemplate(disk: Disk, entry: Entry, source: Option<string>, flat: Ini)
    requires HasIniExtension(entry.name) && Classify(entry.name).Instance? && entry in disk
    requires Flattens(flat, disk, entry, Entry(entry.dir, TemplateFileName(Classify(entry.name).prefix)))
    ensures var template := Entry(entry.dir, TemplateFileName(Classify(entry.name).prefix));
            ParseUnitFile(disk, entry, source) == ParseUnitFile((disk - {template})[entry := flat], entry, source)
  {
    var kind := Classify(entry.name);
    var template := Entry(entry.dir, TemplateFileName(kind.prefix));
    InstanceIsNoTemplate(entry.name);
    var base: Ini := if template in disk then disk[template] else map[];
    assert base + disk[entry] == flat;
    assert map[] + flat == flat;
  }

  lemma InstanceIsNoTemplate(name: string)
    requires HasIniExtension(name) && Classify(name).Instance?
    ensures name != TemplateFileName(Classify(name).prefix)
  {
    var kind := Classify(name);
    InstanceFileIffBuilt(name, kind.prefix, kind.instance);
    var made := MakeUnitName(name);
    assert name == made + INI by {
      assert name[|name| - 4..] == INI;
    }
    assert |name| == |kind.prefix| + 1 + |kind.instance| + 4;
    assert |TemplateFileName(kind.prefix)| == |kind.prefix| + 5;
    assert |kind.instance| > 0;
  }

  /** An empty instance file and an instance on demand without a value are built from the same keys, so whatever is
      read from them is the same; they are the same unit, except for the mark that it came from a template; and one
      route fails exactly when the other does. */
  lemma TwoRoutesAgree(disk: Disk, template: TemplateRef, instance: string)
    requires template.prefix != "" && '@' !in template.prefix && instance != ""
    requires var file := Entry(template.dir, BuildUnitName(template.prefix, instance) + INI);
             file in disk && disk[file] == map[]
    ensures var name := BuildUnitName(template.prefix, instance) + INI;
            HasIniExtension(name)
            && var parsed := ParseUnitFile(disk, Entry(template.dir, name), template.source);
               var demanded := Instantiate(disk, template, instance, None);
               && (Entry(template.dir, TemplateFileName(template.prefix)) in disk ==>
                     FileKeys(disk, Entry(template.dir, name), template.source)
                         == InstanceKeys(disk, template, instance, None))
               && (parsed.Ok? <==> demanded.Ok?)
               && (parsed.Ok? ==> parsed.value == demanded.value.(fromTemplate := false)
                                  && SplitInstanceName(parsed.value.name) == Some((template.prefix, instance)))
  {
    var built := BuildUnitName(template.prefix, instance);
    MakeUnitNameOf(built);
    InstanceFileIffBuilt(built + INI, template.prefix, instance);
    SplitIffBuilt(built, template.prefix, instance);
    var file := Entry(template.dir, TemplateFileName(template.prefix));
    var base: Ini := if file in disk then disk[file] else map[];
    assert base + map[] == base;
  }

  /** What an instance is called and where it is from depends on the template alone, and whether it can be made does not
      depend on the instance or the value. */
  lemma InstanceIdentity(disk: Disk, template: TemplateRef, instance: string, userValue: Option<string>)
    ensures var r := Instantiate(disk, template, instance, userValue);
            && (r.Ok? <==> Usable(disk, template))
            && (r.Ok? ==> r.value.name == BuildUnitName(template.prefix, instance)
                          && r.value.source == template.source && r.value.fromTemplate)
  {
  }

  predicate Usable(disk: Disk, template: TemplateRef) {
    var file := Entry(template.dir, TemplateFileName(template.prefix));
    file in disk && "exec" in disk[file]
  }

  // ---------------------------------------------------------------------------------------------------------------
  // A directory tree
  // ---------------------------------------------------------------------------------------------------------------

  datatype Parsed = Parsed(units: seq<Unit>, templates: seq<TemplateRef>)

  function ParseEntry(disk: Disk, entry: Entry, source: Option<string>): (p: Parsed)
    ensures forall u :: u in p.units ==> u.source == source && !u.fromTemplate
    ensures forall t :: t in p.templates ==> t.source == source
  {
    if !HasIniExtension(entry.name) then Parsed([], [])
    else if Classify(entry.name).Template? then
      Parsed([], [TemplateRef(Classify(entry.name).prefix, entry.dir, source)])
    else
      match ParseUnitFile(disk, entry, source)
      case Ok(unit) => Parsed([unit], [])
      case Err(_) => Parsed([], [])
  }

  /** The first n entries. */
  function ParseFirst(disk: Disk, entries: seq<Entry>, source: Option<string>, n: nat): (p: Parsed)
    requires n <= |entries|
    ensures forall u :: u in p.units ==> u.source == source && !u.fromTemplate
    ensures forall t :: t in p.templates ==> t.source == source
  {
    if n == 0 then Parsed([], [])
    else
      var before := ParseFirst(disk, entries, source, n - 1);
      var last := ParseEntry(disk, entries[n - 1], source);
      Parsed(before.units + last.units, before.templates + last.templates)
  }

  function ParseTree(disk: Disk, entries: seq<Entry>, source: Option<string>): (p: Parsed)
    ensures forall u :: u in p.units ==> u.source == source && !u.fromTemplate
    ensures forall t :: t in p.templates ==> t.source == source
  {
    ParseFirst(disk, entries, source, |entries|)
  }

  /** The file is no template and can be read as this unit. */
  predicate Yields(disk: Disk, entry: Entry, source: Option<string>, unit: Unit) {
    && HasIniExtension(entry.name) && !Classify(entry.name).Template?
    && ParseUnitFile(disk, entry, source) == Ok(unit)
  }

  ghost predicate OneYields(disk: Disk, entries: seq<Entry>, source: Option<string>, n: nat, unit: Unit)
    requires n <= |entries|
  {
    exists k :: 0 <= k < n && Yields(disk, entries[k], source, unit)
  }

  lemma OneYieldsMore(disk: Disk, entries: seq<Entry>, source: Option<string>, n: nat, unit: Unit)
    requires 0 < n <= |entries|
    ensures OneYields(disk, entries, source, n, unit)
       <==> OneYields(disk, entries, source, n - 1, unit) || Yields(disk, entries[n - 1], source, unit)
  {
  }

  lemma UnitOfFile(disk: Disk, entry: Entry, source: Option<string>, unit: Unit)
    ensures unit in ParseEntry(disk, entry, source).units <==> Yields(disk, entry, source, unit)
  {
  }

  lemma {:induction false} FirstUnits(disk: Disk, entries: seq<Entry>, source: Option<string>, n: nat, unit: Unit)
    requires n <= |entries|
    ensures unit in ParseFirst(disk, entries, source, n).units
       <==> OneYields(disk, entries, source, n, unit)
    decreases n
  {
    if n > 0 {
      FirstUnits(disk, entries, source, n - 1, unit);
      UnitOfFile(disk, entries[n - 1], source, unit);
      OneYieldsMore(disk, entries, source, n, unit);
    }
  }

  lemma TemplateOfFile(disk: Disk, entry: Entry, source: Option<string>, template: TemplateRef)
    ensures template in ParseEntry(disk, entry, source).templates
       <==> && template.source == source && '@' !in template.prefix
            && entry == Entry(template.dir, template.prefix + "@" + ".ini")
  {
    var name := template.prefix + "@" + ".ini";
    assert name[|name| - 4..] == ".ini";
    if HasIniExtension(entry.name) {
      TemplateFileIffBuilt(entry.name, template.prefix);
    }
  }

  lemma {:induction false} FirstTemplates(disk: Disk, entries: seq<Entry>, source: Option<string>, n: nat,
                                          template: TemplateRef)
    requires n <= |entries|
    ensures template in ParseFirst(disk, entries, source, n).templates
       <==> && template.source == source && '@' !in template.prefix
            && Entry(template.dir, template.prefix + "@" + ".ini") in entries[..n]
    decreases n
  {
    if n > 0 {
      FirstTemplates(disk, entries, source, n - 1, template);
      TemplateOfFile(disk, entries[n - 1], source, template);
      assert entries[..n] == entries[..n - 1] + [entries[n - 1]];
    }
  }

  /** What a tree yields: the unit of every file that is no template and can be read, and every template, with the
      directory it was found in. */
  lemma TreeIsItsFiles(disk: Disk, entries: seq<Entry>, source: Option<string>, unit: Unit, template: TemplateRef)
    ensures unit in ParseTree(disk, entries, source).units
       <==> OneYields(disk, entries, source, |entries|, unit)
    ensures template in ParseTree(disk, entries, source).templates
       <==> && template.source == source && '@' !in template.prefix
            && Entry(template.dir, template.prefix + "@" + ".ini") in entries
  {
    FirstUnits(disk, entries, source, |entries|, unit);
    FirstTemplates(disk, entries, source, |entries|, template);
    assert entries[..|entries|] == entries;
  }

  /** One entry of the walk in libsystemd_parse_dir_walk. */
  method ParseOne(disk: Disk, entry: Entry, source: Option<string>) returns (p: Parsed)
    ensures p == ParseEntry(disk, entry, source)
  {
    p := Parsed([], []);
    if HasIniExtension(entry.name) {
      var kind := ClassifyUnitFile(entry.name);
      if kind.Template? {
        p := Parsed([], [TemplateRef(kind.prefix, entry.dir, source)]);
      } else {
        var result := ParseUnitFile(disk, entry, source);
        if result.Ok? {
          p := Parsed([result.value], []);
        }
      }
    }
  }

  /** libsystemd_parse_dir_walk over the entries it meets. */
  method ParseDir(disk: Disk, entries: seq<Entry>, source: Option<string>) returns (p: Parsed)
    ensures p == ParseTree(disk, entries, source)
  {
    p := Parsed([], []);
    for i := 0 to |entries|
      invariant p == ParseFirst(disk, entries, source, i)
    {
      var one := ParseOne(disk, entries[i], source);
      p := Parsed(p.units + one.units, p.templates + one.templates);
    }
  }
}
