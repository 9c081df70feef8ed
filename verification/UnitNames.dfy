/** Unit and unit file names (app/libsystemd/src/serviceapi.c:1808-1812, 1857-1871, 1955-2061, 2597-2645). */
module UnitNames {
  import opened Wrappers

  const INI: string := ".ini"

  datatype Kind = Plain | Template(prefix: string) | Instance(prefix: string, instance: string)

  predicate HasIniExtension(fileName: string) {
    |fileName| > 4 && fileName[|fileName| - 4..] == INI
  }

  function MakeUnitName(fileName: string): string
    requires HasIniExtension(fileName)
  {
    fileName[..|fileName| - 4]
  }

  function BuildUnitName(prefix: string, instance: string): string {
    prefix + "@" + instance
  }

  function TemplateFileName(prefix: string): string {
    prefix + "@" + INI
  }

  function FirstAt(s: string): (i: nat)
    ensures i <= |s| && '@' !in s[..i] && (i < |s| ==> s[i] == '@')
  {
    if s == "" || s[0] == '@' then 0
    else
      var i := FirstAt(s[1..]);
      assert s[..1 + i] == [s[0]] + s[1..][..i];
      1 + i
  }

  function Classify(fileName: string): Kind
    requires HasIniExtension(fileName)
  {
    var base := MakeUnitName(fileName);
    var at := FirstAt(base);
    if at == |base| then Plain
    else if at + 1 == |base| then Template(base[..at])
    else Instance(base[..at], base[at + 1..])
  }

  function SplitInstanceName(unitName: string): Option<(string, string)> {
    var at := FirstAt(unitName);
    if at == |unitName| || at == 0 || at + 1 == |unitName| then None
    else Some((unitName[..at], unitName[at + 1..]))
  }

  lemma {:induction false} FirstAtIs(prefix: string, rest: string)
    requires '@' !in prefix
    ensures FirstAt(prefix + "@" + rest) == |prefix|
  {
    var s := prefix + "@" + rest;
    if prefix != "" {
      assert s[0] == prefix[0] && s[1..] == prefix[1..] + "@" + rest;
      FirstAtIs(prefix[1..], rest);
    }
  }

  /** Splitting finds a pair exactly when the name was built from it; building never yields an ambiguous name. */
  lemma SplitIffBuilt(unitName: string, prefix: string, instance: string)
    ensures SplitInstanceName(unitName) == Some((prefix, instance))
       <==> unitName == BuildUnitName(prefix, instance) && prefix != "" && instance != "" && '@' !in prefix
  {
    var at := FirstAt(unitName);
    if at < |unitName| {
      assert unitName == unitName[..at] + "@" + unitName[at + 1..];
    }
    if unitName == BuildUnitName(prefix, instance) && '@' !in prefix {
      FirstAtIs(prefix, instance);
      assert unitName[..|prefix|] == prefix && unitName[|prefix| + 1..] == instance;
    }
  }

  /** A file is an instance exactly when its name is an instance name plus the extension, so the name derived from the
      file and the name built from its parts are the same. */
  lemma InstanceFileIffBuilt(fileName: string, prefix: string, instance: string)
    requires HasIniExtension(fileName)
    ensures Classify(fileName) == Instance(prefix, instance)
       <==> MakeUnitName(fileName) == BuildUnitName(prefix, instance) && instance != "" && '@' !in prefix
  {
    var base := MakeUnitName(fileName);
    var at := FirstAt(base);
    if at < |base| {
      assert base == base[..at] + "@" + base[at + 1..];
    }
    if base == BuildUnitName(prefix, instance) && '@' !in prefix {
      FirstAtIs(prefix, instance);
      assert base[..|prefix|] == prefix && base[|prefix| + 1..] == instance;
    }
  }

  /** A file is a template exactly when its name is a prefix, an @ and the extension; it is a plain unit exactly when
      there is no @ in it at all. */
  lemma TemplateFileIffBuilt(fileName: string, prefix: string)
    requires HasIniExtension(fileName)
    ensures Classify(fileName) == Template(prefix) <==> fileName == prefix + "@" + ".ini" && '@' !in prefix
    ensures Classify(fileName) == Plain <==> '@' !in fileName
  {
    var base := MakeUnitName(fileName);
    var at := FirstAt(base);
    assert fileName == base + ".ini";
    assert '@' !in ".ini";
    if at + 1 == |base| {
      assert base == base[..at] + "@";
    }
    if fileName == prefix + "@" + ".ini" && '@' !in prefix {
      assert base == fileName[..|fileName| - 4] == prefix + "@" + "";
      FirstAtIs(prefix, "");
      assert base[..|prefix|] == prefix;
    }
  }

  /** Adding the extension to a non-empty name and taking it away again gives the name back. */
  lemma MakeUnitNameOf(name: string)
    requires name != ""
    ensures HasIniExtension(name + INI) && MakeUnitName(name + INI) == name
  {
    var f := name + INI;
    assert f[|f| - 4..] == INI && f[..|f| - 4] == name;
  }

  /** The search loop of libsystemd_classify_unit_file and libsystemd_split_instance_name. */
  method FindAt(s: string, len: nat) returns (at: nat)
    requires len <= |s|
    ensures at == FirstAt(s[..len])
  {
    at := 0;
    while at < len && s[at] != '@'
      invariant at <= len && forall k :: 0 <= k < at ==> s[k] != '@'
    {
      at := at + 1;
    }
    ghost var t := s[..len];
    assert '@' !in t[..at];
    if at < len {
      FirstAtIs(t[..at], t[at + 1..]);
      assert t == t[..at] + "@" + t[at + 1..];
    } else {
      assert t[..at] == t;
    }
  }

  method ClassifyUnitFile(fileName: string) returns (kind: Kind)
    requires HasIniExtension(fileName)
    ensures kind == Classify(fileName)
  {
    var baseLength := |fileName| - 4;
    var at := FindAt(fileName, baseLength);
    ghost var base := fileName[..baseLength];
    if at == baseLength {
      kind := Plain;
    } else if baseLength - at - 1 == 0 {
      kind := Template(fileName[..at]);
      assert base[..at] == fileName[..at];
    } else {
      kind := Instance(fileName[..at], fileName[at + 1..baseLength]);
      assert base[..at] == fileName[..at] && base[at + 1..] == fileName[at + 1..baseLength];
    }
  }

  method SplitName(unitName: string) returns (parts: Option<(string, string)>)
    ensures parts == SplitInstanceName(unitName)
  {
    var len := |unitName|;
    var at := FindAt(unitName, len);
    assert unitName[..len] == unitName;
    if at == len || at == 0 || len - at - 1 == 0 {
      parts := None;
    } else {
      parts := Some((unitName[..at], unitName[at + 1..]));
    }
  }
}
