// DiffractionFile: a reflection data file, its weight, whether it holds
// neutron data, and the filter that reads it. The filter follows from the
// file's extension; when the file is found through a molecular assembly,
// five data files next to the assembly's file are probed in a fixed order.

module Diffraction {

  /** The three reflection-file readers. */
  datatype FilterKind = MTZ | CIF | CNS

  /** A Java reference that may be null. */
  datatype Option<T> = None | Some(value: T)

  /** The exception an empty assembly array raises at `assembly[0]`. */
  datatype Result<T> = Success(value: T) | ArrayIndexOutOfBounds

  /** A molecular assembly, as far as this class looks at it: the path of its file. */
  datatype Assembly = Assembly(filePath: string)

  /** The final fields of a DiffractionFile; a null filter is None. */
  datatype DiffractionFile = DiffractionFile(filename: string, weight: real, neutron: bool, filter: Option<FilterKind>)

  /** Last index of c in s, or -1. */
  function LastIndexOf(s: string, c: char): (r: int)
    ensures -1 <= r < |s|
    ensures r >= 0 ==> s[r] == c
    ensures forall k :: r < k < |s| ==> s[k] != c
  {
    if |s| == 0 then -1
    else if s[|s| - 1] == c then |s| - 1
    else LastIndexOf(s[..|s| - 1], c)
  }

  /** The last index is the one position holding c with no c after it. */
  lemma LastIndexAt(s: string, c: char, i: int)
    requires 0 <= i < |s| && s[i] == c
    requires forall k :: i < k < |s| ==> s[k] != c
    ensures LastIndexOf(s, c) == i
  {
  }

  /** Appending a string without c leaves the last index of c where it was. */
  lemma LastIndexAppend(s: string, t: string, c: char)
    requires forall k :: 0 <= k < |t| ==> t[k] != c
    ensures LastIndexOf(s + t, c) == LastIndexOf(s, c)
  {
    var r := LastIndexOf(s, c);
    var r' := LastIndexOf(s + t, c);
    assert forall k :: |s| <= k < |s + t| ==> (s + t)[k] == t[k - |s|];
    if r >= 0 {
      assert (s + t)[r] == c;
    }
    if r' >= 0 {
      assert r' < |s| && s[r'] == c;
    }
  }

  /** Index of the last file-name separator, '/' or '\', or -1. */
  function LastSeparator(s: string): int
  {
    var u := LastIndexOf(s, '/');
    var w := LastIndexOf(s, '\\');
    if u > w then u else w
  }

  /** Index of the extension's dot, or -1 when the last dot is not in the final name. */
  function ExtensionDot(s: string): (r: int)
    ensures -1 <= r < |s|
  {
    var d := LastIndexOf(s, '.');
    if LastSeparator(s) > d then -1 else d
  }

  /** `FilenameUtils.getExtension`: the text after the extension's dot, or "". */
  function Extension(s: string): string
  {
    var d := ExtensionDot(s);
    if d == -1 then "" else s[d + 1..]
  }

  /** `FilenameUtils.removeExtension`: the path without its extension and dot. */
  function RemoveExtension(s: string): string
  {
    var d := ExtensionDot(s);
    if d == -1 then s else s[..d]
  }

  /** `FilenameUtils.isExtension` with one extension or several. */
  predicate IsExtension(s: string, ext: string)
  {
    Extension(s) == ext
  }

  predicate IsAnyExtension(s: string, exts: seq<string>)
  {
    exists k :: 0 <= k < |exts| && IsExtension(s, exts[k])
  }

  lemma IsAnyExtensionPair(s: string, a: string, b: string)
    ensures IsAnyExtension(s, [a, b]) <==> Extension(s) in {a, b}
  {
    if Extension(s) == a {
      assert IsExtension(s, [a, b][0]);
    } else if Extension(s) == b {
      assert IsExtension(s, [a, b][1]);
    }
  }

  /** `File.getName()`: the part of a path after its last '/'. */
  function Name(path: string): string
  {
    path[LastIndexOf(path, '/') + 1..]
  }

  /** A string that can be a file extension: no dot and no separator in it. */
  predicate PlainExtension(e: string)
  {
    forall k :: 0 <= k < |e| ==> e[k] != '.' && e[k] != '/' && e[k] != '\\'
  }

  /** Adding "." + e to any path gives a path whose extension is e. */
  lemma ExtensionOfAppended(base: string, e: string)
    requires PlainExtension(e)
    ensures Extension(base + "." + e) == e
    ensures RemoveExtension(base + "." + e) == base
  {
    var s := base + "." + e;
    assert s == (base + ".") + e;
    LastIndexAppend(base + ".", e, '.');
    LastIndexAppend(base + ".", e, '/');
    LastIndexAppend(base + ".", e, '\\');
    LastIndexAt(base + ".", '.', |base|);
    LastIndexAppend(base, ".", '/');
    LastIndexAppend(base, ".", '\\');
    assert ExtensionDot(s) == |base|;
    assert s[|base| + 1..] == e;
    assert s[..|base|] == base;
  }

  /** The name of base + "." + e is the name of base followed by "." + e. */
  lemma NameOfAppended(base: string, e: string)
    requires PlainExtension(e)
    ensures Name(base + "." + e) == Name(base) + "." + e
  {
    var s := base + "." + e;
    assert s == base + ("." + e);
    assert forall k :: 0 <= k < |"." + e| ==> ("." + e)[k] != '/';
    LastIndexAppend(base, "." + e, '/');
    var j := LastIndexOf(base, '/') + 1;
    assert s[j..] == base[j..] + "." + e;
  }

  /**
   * The extension rule of the filename constructor: `mtz` selects the MTZ
   * filter, `cif` or `ent` the CIF filter, `cns` or `hkl` the CNS filter,
   * and any other extension none.
   */
  function FilterOf(filename: string): (r: Option<FilterKind>)
    ensures r == Some(MTZ) <==> Extension(filename) == "mtz"
    ensures r == Some(CIF) <==> Extension(filename) in {"cif", "ent"}
    ensures r == Some(CNS) <==> Extension(filename) in {"cns", "hkl"}
    ensures r == None <==> Extension(filename) !in {"mtz", "cif", "ent", "cns", "hkl"}
  {
    IsAnyExtensionPair(filename, "cif", "ent");
    IsAnyExtensionPair(filename, "cns", "hkl");
    if IsExtension(filename, "mtz") then Some(MTZ)
    else if IsAnyExtension(filename, ["cif", "ent"]) then
      Some(CIF)
    else if IsAnyExtension(filename, ["cns", "hkl"]) then
      Some(CNS)
    else None
  }

  /**
   * `new DiffractionFile(filename, weight, neutron)`: a missing file is only
   * logged, so the fields come from the arguments whatever the disk holds.
   */
  function FromName(filename: string, weight: real, neutron: bool): (r: DiffractionFile)
    ensures r.filename == filename && r.weight == weight && r.neutron == neutron
    ensures r.filter == FilterOf(filename)
  {
    DiffractionFile(filename, weight, neutron, FilterOf(filename))
  }

  /** `new DiffractionFile(filename)` and `new DiffractionFile(filename, weight)`. */
  function FromNameDefaults(filename: string, weight: Option<real>): (r: DiffractionFile)
    ensures r.filename == filename && !r.neutron && r.filter == FilterOf(filename)
    ensures r.weight == if weight.Some? then weight.value else 1.0
  {
    FromName(filename, if weight.Some? then weight.value else 1.0, false)
  }

  /**
   * `new DiffractionFile(assembly, weight, neutron)`: with the extension
   * removed from the assembly's path, tries `.mtz`, `.cif`, `.ent`, `.cns`
   * and `.hkl` in turn and keeps the name of the first file that exists;
   * when none exists the filter is null and the name is that of the `.hkl`
   * file. `present` says which paths exist on disk.
   */
  function FromAssembly(assembly: Assembly, present: string -> bool, weight: real, neutron: bool): (r: DiffractionFile)
    ensures r.weight == weight && r.neutron == neutron
    ensures r.filter.None? <==>
              var name := RemoveExtension(assembly.filePath);
              !present(name + ".mtz") && !present(name + ".cif") && !present(name + ".ent")
              && !present(name + ".cns") && !present(name + ".hkl")
  {
    var name := RemoveExtension(assembly.filePath);
    if present(name + ".mtz") then DiffractionFile(Name(name + ".mtz"), weight, neutron, Some(MTZ))
    else if present(name + ".cif") then DiffractionFile(Name(name + ".cif"), weight, neutron, Some(CIF))
    else if present(name + ".ent") then DiffractionFile(Name(name + ".ent"), weight, neutron, Some(CIF))
    else if present(name + ".cns") then DiffractionFile(Name(name + ".cns"), weight, neutron, Some(CNS))
    else if present(name + ".hkl") then DiffractionFile(Name(name + ".hkl"), weight, neutron, Some(CNS))
    else DiffractionFile(Name(name + ".hkl"), weight, neutron, None)
  }

  /** `new DiffractionFile(assembly)` and `new DiffractionFile(assembly, weight)`. */
  function FromAssemblyDefaults(assembly: Assembly, present: string -> bool, weight: Option<real>): (r: DiffractionFile)
    ensures !r.neutron && r.weight == if weight.Some? then weight.value else 1.0
  {
    FromAssembly(assembly, present, if weight.Some? then weight.value else 1.0, false)
  }

  /**
   * The array constructors: only `assembly[0]` is used, and an empty array
   * fails on that access.
   */
  function FromAssemblies(assemblies: seq<Assembly>, present: string -> bool, weight: real, neutron: bool)
    : (r: Result<DiffractionFile>)
    ensures r.ArrayIndexOutOfBounds? <==> |assemblies| == 0
    ensures r.Success? ==> r.value == FromAssembly(assemblies[0], present, weight, neutron)
  {
    if |assemblies| == 0 then ArrayIndexOutOfBounds
    else Success(FromAssembly(assemblies[0], present, weight, neutron))
  }

  /** The probe order: each extension tried, with the filter it selects. */
  const Probes: seq<(string, FilterKind)> :=
    [("mtz", MTZ), ("cif", CIF), ("ent", CIF), ("cns", CNS), ("hkl", CNS)]

  /** Index of the first probe at or after k whose file exists under base. */
  function FirstPresent(base: string, present: string -> bool, k: nat): (r: Option<nat>)
    requires k <= |Probes|
    decreases |Probes| - k
  {
    if k == |Probes| then None
    else if present(base + "." + Probes[k].0) then Some(k)
    else FirstPresent(base, present, k + 1)
  }

  /**
   * FirstPresent finds exactly the first existing probe from k on, and
   * finds nothing exactly when none of them exists.
   */
  lemma {:induction false} FirstPresentSpec(base: string, present: string -> bool, k: nat)
    requires k <= |Probes|
    ensures var r := FirstPresent(base, present, k);
            (r.Some? ==> k <= r.value < |Probes| && present(base + "." + Probes[r.value].0)
                         && forall j :: k <= j < r.value ==> !present(base + "." + Probes[j].0))
            && (r.None? <==> forall j :: k <= j < |Probes| ==> !present(base + "." + Probes[j].0))
    decreases |Probes| - k
  {
    if k < |Probes| && !present(base + "." + Probes[k].0) {
      FirstPresentSpec(base, present, k + 1);
    }
  }

  /**
   * The assembly constructor keeps the first existing probe in probe
   * order, with its filter, and falls back to the `.hkl` name with no
   * filter.
   */
  lemma AssemblyProbeOrder(assembly: Assembly, present: string -> bool, weight: real, neutron: bool)
    ensures var base := RemoveExtension(assembly.filePath);
            var r := FromAssembly(assembly, present, weight, neutron);
            r.weight == weight && r.neutron == neutron
            && match FirstPresent(base, present, 0)
               case Some(k) => r.filename == Name(base + "." + Probes[k].0) && r.filter == Some(Probes[k].1)
               case None => r.filename == Name(base + ".hkl") && r.filter == None
  {
    var base := RemoveExtension(assembly.filePath);
    var probe := k requires 0 <= k < |Probes| => base + "." + Probes[k].0;
    assert probe(0) == base + ".mtz" && probe(1) == base + ".cif" && probe(2) == base + ".ent";
    assert probe(3) == base + ".cns" && probe(4) == base + ".hkl";
    if present(probe(0)) {
      assert FirstPresent(base, present, 0) == Some(0);
    } else if present(probe(1)) {
      assert FirstPresent(base, present, 0) == Some(1);
    } else if present(probe(2)) {
      assert FirstPresent(base, present, 1) == Some(2);
    } else if present(probe(3)) {
      assert FirstPresent(base, present, 2) == Some(3);
    } else if present(probe(4)) {
      assert FirstPresent(base, present, 3) == Some(4);
    } else {
      assert FirstPresent(base, present, 4) == None;
    }
  }

  /** Every probe's extension passes the extension rule with the probe's own filter. */
  lemma ProbeFilterAgrees(base: string, k: nat)
    requires k < |Probes|
    ensures FilterOf(Name(base + "." + Probes[k].0)) == Some(Probes[k].1)
  {
    var e := Probes[k].0;
    assert PlainExtension(e);
    NameOfAppended(base, e);
    ExtensionOfAppended(Name(base), e);
  }

  /**
   * A file found through an assembly gets the filter that the filename
   * constructor would choose for its name; when no data file exists the
   * filter is null although the `.hkl` name would select CNS.
   */
  lemma AssemblyFilterMatchesName(assembly: Assembly, present: string -> bool, weight: real, neutron: bool)
    ensures var r := FromAssembly(assembly, present, weight, neutron);
            (r.filter.Some? ==> r.filter == FilterOf(r.filename))
            && (r.filter.None? ==> FilterOf(r.filename) == Some(CNS))
  {
    var base := RemoveExtension(assembly.filePath);
    var r := FromAssembly(assembly, present, weight, neutron);
    AssemblyProbeOrder(assembly, present, weight, neutron);
    var first := FirstPresent(base, present, 0);
    if first.Some? {
      var k := first.value;
      FirstPresentSpec(base, present, 0);
      var probe := Probes[k];
      assert r.filename == Name(base + "." + probe.0) && r.filter == Some(probe.1);
      ProbeFilterAgrees(base, k);
    } else {
      assert base + ".hkl" == base + "." + Probes[4].0;
      assert r.filename == Name(base + "." + Probes[4].0) && r.filter == None;
      ProbeFilterAgrees(base, 4);
    }
  }

  /** With no data file next to the assembly, the filter is null. */
  lemma AssemblyNoDataFile(assembly: Assembly, present: string -> bool, weight: real, neutron: bool)
    requires forall k :: 0 <= k < |Probes| ==> !present(RemoveExtension(assembly.filePath) + "." + Probes[k].0)
    ensures FromAssembly(assembly, present, weight, neutron).filter == None
  {
    var base := RemoveExtension(assembly.filePath);
    FirstPresentSpec(base, present, 0);
    AssemblyProbeOrder(assembly, present, weight, neutron);
  }
}
