/** `TrimeshConverter`: derivation of the material and output paths, the
    best-effort texture check that rewrites the `.mtl` file line for line,
    default-material substitution, and the `None`-on-failure conversion. */
module Converter {
  import opened Wrappers
  import opened Strings
  import opened Paths
  import opened Seqs

  /** The files the converter can see: a path is present iff `os.path.exists`
      holds of it; the value is the file's contents as stored, the text of a
      material file or the bytes of an exported GLB. */
  type Disk = map<string, string>

  /** `obj_path.replace(".obj", ".mtl")` */
  function MtlPath(objPath: string): (r: string)
    ensures |r| == |objPath|
  {
    ReplaceAll(objPath, ".obj", ".mtl")
  }

  /** For a path whose only dot is the one of its `.obj` extension, the
      material file is its sibling with the `.mtl` extension. */
  lemma MtlPathOfPlainPath(stem: string)
    requires '.' !in stem
    ensures MtlPath(stem + ".obj") == stem + ".mtl"
  {
    ReplaceSuffix(stem, ".obj", ".mtl");
  }

  /** Every `.obj` in the path is rewritten, directory names included: the
      material file of `<dir>.obj/<stem>.obj` is looked up in `<dir>.mtl/`. */
  lemma {:induction false} MtlPathRewritesDirectories(dir: string, stem: string)
    requires '.' !in dir && '.' !in stem
    ensures MtlPath(dir + ".obj/" + stem + ".obj") == dir + ".mtl/" + stem + ".mtl"
  {
    var rest := "/" + stem + ".obj";
    assert dir + ".obj/" + stem + ".obj" == dir + ".obj" + rest;
    ReplaceAfterStem(dir, ".obj", rest, ".mtl");
    assert '.' !in "/" + stem;
    assert rest == ("/" + stem) + ".obj";
    ReplaceSuffix("/" + stem, ".obj", ".mtl");
    assert dir + ".mtl" + (("/" + stem) + ".mtl") == dir + ".mtl/" + stem + ".mtl";
  }

  /** Where the GLB is written: the output directory joined with the source
      file's name, every `.obj` in it replaced by `.glb`. */
  function OutputPath(outputDir: string, objPath: string): (r: string)
    ensures Basename(r) == GlbName(objPath)
    ensures Dirname(r) == outputDir || |outputDir| == 0 || outputDir[|outputDir| - 1] == '/'
  {
    JoinNameFacts(outputDir, GlbName(objPath));
    Join(outputDir, GlbName(objPath))
  }

  /** The output file name: the source file name with every `.obj` replaced
      by `.glb`, which introduces no `/`. */
  function GlbName(objPath: string): (r: string)
    ensures '/' !in r
  {
    var ext := ".glb";
    assert ext[0] != '/' && ext[1] != '/' && ext[2] != '/' && ext[3] != '/';
    assert '/' !in ext;
    ReplaceAllChars(Basename(objPath), ".obj", ext, '/');
    ReplaceAll(Basename(objPath), ".obj", ext)
  }

  lemma JoinNameFacts(dir: string, name: string)
    requires '/' !in name
    ensures Basename(Join(dir, name)) == name
    ensures Dirname(Join(dir, name)) == dir || |dir| == 0 || dir[|dir| - 1] == '/'
  {
    BasenameOfJoin(dir, name);
    if |dir| > 0 && dir[|dir| - 1] != '/' {
      DirnameOfJoin(dir, name);
    }
  }

  /** A source mesh `<dir>/<stem>.obj` whose stem has no dot converts to
      `<stem>.glb` in the output directory. */
  lemma OutputNameOfPlainFile(outputDir: string, dir: string, stem: string)
    requires '.' !in stem && '/' !in stem
    ensures Basename(OutputPath(outputDir, Join(dir, stem + ".obj"))) == stem + ".glb"
  {
    assert '/' !in stem + ".obj";
    BasenameOfJoin(dir, stem + ".obj");
    ReplaceSuffix(stem, ".obj", ".glb");
  }

  /** The text Python's `open(path, 'r')` delivers: universal-newline mode
      turns every `\r\n` and every lone `\r` into `\n`. */
  function UniversalNewlines(raw: string): (t: string)
    ensures '\r' !in t
    ensures '\r' !in raw ==> t == raw
    ensures |t| <= |raw|
    decreases |raw|
  {
    if |raw| == 0 then ""
    else if raw[0] == '\r' then
      if |raw| > 1 && raw[1] == '\n' then "\n" + UniversalNewlines(raw[2..])
      else "\n" + UniversalNewlines(raw[1..])
    else
      assert forall c :: c in raw[1..] ==> c in raw;
      [raw[0]] + UniversalNewlines(raw[1..])
  }

  /** Reading translates line endings and nothing else: every `\r\n`
      becomes `\n`, then every remaining `\r` becomes `\n`. */
  lemma {:induction false} UniversalNewlinesTranslates(raw: string)
    ensures UniversalNewlines(raw) == ReplaceAll(ReplaceAll(raw, "\r\n", "\n"), "\r", "\n")
    decreases |raw|
  {
    var crlf, cr, lf := "\r\n", "\r", "\n";
    if |raw| == 0 {
    } else if raw[0] == '\r' && |raw| > 1 && raw[1] == '\n' {
      var rest := raw[2..];
      UniversalNewlinesTranslates(rest);
      assert raw == crlf + rest;
      ReplaceAllHit(crlf, rest, lf);
      ReplaceAllMiss('\n', ReplaceAll(rest, crlf, lf), cr, lf);
      assert lf == ['\n'];
    } else if raw[0] == '\r' {
      var rest := raw[1..];
      UniversalNewlinesTranslates(rest);
      assert ReplaceAll(raw, crlf, lf) == cr + ReplaceAll(rest, crlf, lf) by {
        if |raw| >= 2 {
          assert raw[..2] != crlf by { assert raw[..2][1] == raw[1]; }
        } else {
          assert rest == [];
        }
      }
      ReplaceAllHit(cr, ReplaceAll(rest, crlf, lf), lf);
    } else {
      var rest := raw[1..];
      UniversalNewlinesTranslates(rest);
      assert raw == [raw[0]] + rest;
      ReplaceAllMiss(raw[0], rest, crlf, lf);
      ReplaceAllMiss(raw[0], ReplaceAll(rest, crlf, lf), cr, lf);
    }
  }

  /** The length of the first line of `t`, its `\n` included. */
  function LineLength(t: string): (n: nat)
    requires |t| > 0
    ensures 1 <= n <= |t|
    ensures forall j :: 0 <= j < n - 1 ==> t[j] != '\n'
    ensures t[n - 1] == '\n' || n == |t|
  {
    if t[0] == '\n' || |t| == 1 then 1 else 1 + LineLength(t[1..])
  }

  /** `f.readlines()` over already-translated text: the lines, each keeping
      its terminating `\n`; only the last may lack one. */
  function SplitLines(t: string): (lines: seq<string>)
    ensures Flatten(lines) == t
    ensures forall i :: 0 <= i < |lines| ==> |lines[i]| > 0
    ensures forall i :: 0 <= i < |lines| - 1 ==> lines[i][|lines[i]| - 1] == '\n'
    ensures forall i, j :: 0 <= i < |lines| && 0 <= j < |lines[i]| - 1 ==> lines[i][j] != '\n'
    decreases |t|
  {
    if |t| == 0 then []
    else
      var n := LineLength(t);
      var rest := SplitLines(t[n..]);
      var lines := [t[..n]] + rest;
      assert lines[1..] == rest;
      assert t[..n] + t[n..] == t;
      lines
  }

  /** The lines `_fix_missing_texture` reads from a file holding `raw`. */
  function ReadLines(raw: string): seq<string>
  {
    SplitLines(UniversalNewlines(raw))
  }

  /** A material line that binds a diffuse texture map. */
  predicate IsTextureRef(line: string)
  {
    StartsWith(line, "map_Kd")
  }

  /** `line.strip().split()[-1]` for a `map_Kd` line: its last
      whitespace-separated token. */
  function TextureName(line: string): (r: string)
    requires IsTextureRef(line)
    ensures |r| > 0
    ensures forall c :: c in r ==> !IsSpace(c)
    ensures forall i :: |TrimEnd(line)| <= i < |line| ==> IsSpace(line[i])
    ensures |r| <= |TrimEnd(line)| && line[|TrimEnd(line)| - |r|..|TrimEnd(line)|] == r
    ensures |r| < |TrimEnd(line)| ==> IsSpace(line[|TrimEnd(line)| - |r| - 1])
  {
    assert line[..6] == "map_Kd";
    assert line[0] == 'm' && !IsSpace(line[0]);
    LastToken(line)
  }

  /** What the loop over the lines collects: the lines written back, and the
      texture names it warns about, in line order. */
  datatype Scan = Scan(kept: seq<string>, missing: seq<string>)

  /** A `map_Kd` line whose texture, resolved against `folder`, is not among
      the `present` paths. */
  predicate MissingTexture(line: string, folder: string, present: set<string>)
  {
    IsTextureRef(line) && Join(folder, TextureName(line)) !in present
  }

  /** The loop of `_fix_missing_texture` over the lines of the `.mtl` file:
      every line is appended unchanged, and a warning is issued for each
      texture that does not exist next to the mesh. */
  function ScanLines(lines: seq<string>, folder: string, present: set<string>): (s: Scan)
    ensures s.kept == lines
    ensures |s.missing| <= |lines|
    decreases |lines|
  {
    if |lines| == 0 then Scan([], [])
    else
      assert lines == [lines[0]] + lines[1..];
      var line := lines[0];
      var rest := ScanLines(lines[1..], folder, present);
      var warn := if MissingTexture(line, folder, present) then [TextureName(line)] else [];
      Scan([line] + rest.kept, warn + rest.missing)
  }

  /** The warnings name exactly the textures of the `map_Kd` lines that are
      missing. */
  lemma {:induction false} ScanLinesWarnsOnMissing(lines: seq<string>, folder: string, present: set<string>)
    ensures forall i :: 0 <= i < |lines| && MissingTexture(lines[i], folder, present) ==>
      TextureName(lines[i]) in ScanLines(lines, folder, present).missing
    ensures forall w :: w in ScanLines(lines, folder, present).missing ==>
      exists i :: 0 <= i < |lines| && MissingTexture(lines[i], folder, present) && TextureName(lines[i]) == w
    decreases |lines|
  {
    if |lines| > 0 {
      var s := ScanLines(lines, folder, present);
      var rest := ScanLines(lines[1..], folder, present);
      ScanLinesWarnsOnMissing(lines[1..], folder, present);
      var warn := if MissingTexture(lines[0], folder, present) then [TextureName(lines[0])] else [];
      assert s.missing == warn + rest.missing;
      forall i | 0 <= i < |lines| && MissingTexture(lines[i], folder, present)
        ensures TextureName(lines[i]) in s.missing
      {
        if i > 0 {
          assert lines[i] == lines[1..][i - 1];
        }
      }
      forall w | w in s.missing
        ensures exists i :: 0 <= i < |lines| && MissingTexture(lines[i], folder, present) && TextureName(lines[i]) == w
      {
        if w in rest.missing {
          var j :| 0 <= j < |lines[1..]| && MissingTexture(lines[1..][j], folder, present) && TextureName(lines[1..][j]) == w;
          assert lines[j + 1] == lines[1..][j];
        } else {
          assert MissingTexture(lines[0], folder, present);
        }
      }
    }
  }

  /** The disk after a repair, and the texture names reported missing. */
  datatype Repair = Repair(disk: Disk, warnings: seq<string>)

  /** `_fix_missing_texture(obj_path)`. Nothing is written when the material
      file is absent; otherwise the file is rewritten with exactly the lines
      read, so its only change is the newline translation of reading. */
  function FixMissingTexture(disk: Disk, objPath: string): (r: Repair)
    ensures MtlPath(objPath) !in disk ==> r == Repair(disk, [])
    ensures MtlPath(objPath) in disk ==>
      r.disk == disk[MtlPath(objPath) := UniversalNewlines(disk[MtlPath(objPath)])]
    ensures r.disk.Keys == disk.Keys
    ensures MtlPath(objPath) in disk ==>
      r.warnings == ScanLines(ReadLines(disk[MtlPath(objPath)]), Dirname(objPath), disk.Keys).missing
  {
    var mtl := MtlPath(objPath);
    if mtl !in disk then Repair(disk, [])
    else
      var lines := ReadLines(disk[mtl]);
      var scan := ScanLines(lines, Dirname(objPath), disk.Keys);
      Repair(disk[mtl := Flatten(scan.kept)], scan.missing)
  }

  /** A second repair changes nothing: it reads back what the first wrote and
      reports the same missing textures. */
  lemma {:induction false} FixMissingTextureIdempotent(disk: Disk, objPath: string)
    ensures FixMissingTexture(FixMissingTexture(disk, objPath).disk, objPath) == FixMissingTexture(disk, objPath)
  {
    var mtl := MtlPath(objPath);
    if mtl in disk {
      var r1 := FixMissingTexture(disk, objPath);
      var d1 := r1.disk;
      var t := UniversalNewlines(disk[mtl]);
      assert d1[mtl] == t;
      assert UniversalNewlines(t) == t;
      assert ReadLines(d1[mtl]) == ReadLines(disk[mtl]);
      assert d1.Keys == disk.Keys;
      var r2 := FixMissingTexture(d1, objPath);
      assert r2.warnings == r1.warnings;
      assert r2.disk == d1[mtl := t];
      assert d1[mtl := t] == d1;
    }
  }

  /** A material file without carriage returns is left exactly as it was. */
  lemma FixMissingTexturePreservesLfText(disk: Disk, objPath: string)
    requires MtlPath(objPath) in disk ==> '\r' !in disk[MtlPath(objPath)]
    ensures FixMissingTexture(disk, objPath).disk == disk
  {
  }

  datatype Image = Image(name: string)

  /** A trimesh material: `image` is `None` for a flat colour. */
  datatype Material = Material(image: Option<Image>, color: seq<int>)

  /** One named geometry of the loaded scene; `material` is `None` when its
      visual has no `material` attribute. */
  datatype Geom = Geom(name: string, material: Option<Material>)

  /** `SimpleMaterial(color=[220, 220, 220, 255])` */
  const DefaultMaterial := Material(None, [220, 220, 220, 255])

  predicate HasImage(g: Geom)
  {
    g.material.Some? && g.material.value.image.Some?
  }

  /** The loop over `mesh.geometry.items()`: a geometry whose material has no
      image, or which has no material, gets the default material; the others
      are untouched. */
  function DefaultMaterials(gs: seq<Geom>): (r: seq<Geom>)
    ensures |r| == |gs|
    ensures forall i :: 0 <= i < |gs| && HasImage(gs[i]) ==> r[i] == gs[i]
    ensures forall i :: 0 <= i < |gs| && !HasImage(gs[i]) ==>
      r[i] == Geom(gs[i].name, Some(DefaultMaterial))
  {
    if |gs| == 0 then []
    else
      var g := gs[0];
      var g' := if HasImage(g) then g else g.(material := Some(DefaultMaterial));
      [g'] + DefaultMaterials(gs[1..])
  }

  /** After substitution every geometry has a material, and substituting
      again changes nothing. */
  lemma DefaultMaterialsIdempotent(gs: seq<Geom>)
    ensures forall g :: g in DefaultMaterials(gs) ==> g.material.Some?
    ensures DefaultMaterials(DefaultMaterials(gs)) == DefaultMaterials(gs)
  {
    var r := DefaultMaterials(gs);
    var rr := DefaultMaterials(r);
    assert forall i :: 0 <= i < |r| ==> rr[i] == r[i];
  }

  /** What `trimesh.load(obj_path, force='scene')` produced. */
  datatype LoadOutcome = Loaded(geometry: seq<Geom>) | LoadFailed(error: string)

  /** How the repair of the material file fails. Reading raises before any
      line is scanned (a missing permission, a decoding error in
      `readlines`); opening the file for writing raises before it is
      truncated. A fault while writing comes after `open(mtl_path, 'w')`
      emptied the file, so only the first `written` characters of the new
      text reach it. */
  datatype RepairFault =
    | ReadFault(error: string)
    | OpenFault(error: string)
    | WriteFault(written: nat, error: string)

  /** The material file after the repair raised. */
  function FaultedDisk(disk: Disk, objPath: string, fault: RepairFault): (d: Disk)
    requires MtlPath(objPath) in disk
    ensures !fault.WriteFault? ==> d == disk
    ensures fault.WriteFault? ==>
      var m := MtlPath(objPath);
      && d.Keys == disk.Keys
      && d == disk[m := d[m]]
      && d[m] <= UniversalNewlines(disk[m])
      && |d[m]| == Min(fault.written, |UniversalNewlines(disk[m])|)
  {
    match fault
    case WriteFault(n, _) =>
      var t := UniversalNewlines(disk[MtlPath(objPath)]);
      disk[MtlPath(objPath) := if n < |t| then t[..n] else t]
    case _ => disk
  }

  /** The disk after `mesh.export(output_path)` stored `glb`: the output
      file is added or overwritten, and every other file is kept. */
  function Exported(disk: Disk, outputPath: string, glb: string): (d: Disk)
    ensures d.Keys == disk.Keys + {outputPath} && d[outputPath] == glb
    ensures forall p :: p in disk && p != outputPath ==> d[p] == disk[p]
  {
    disk[outputPath := glb]
  }

  /** The behaviour of the collaborators `convert` cannot see: whether
      reading or writing the material file raises, what loading produces,
      whether the export raises, and the bytes a successful export stores. */
  datatype ConvertEnv = ConvertEnv(repairFault: Option<RepairFault>, load: LoadOutcome, exportFault: Option<string>, glb: string)

  /** What `convert` does for its caller: raise, or return a path or `None`. */
  datatype ConvertResult = Raised(error: string) | Returned(output: Option<string>)

  datatype ConvertRun = ConvertRun(result: ConvertResult, disk: Disk, warnings: seq<string>, exported: Option<seq<Geom>>)

  /** `convert(obj_path)`. The repair runs before and outside the `try`, so a
      fault there escapes; a fault in loading or exporting yields `None`. */
  function Convert(disk: Disk, objPath: string, outputDir: string, env: ConvertEnv): (run: ConvertRun)
    ensures run.result.Raised? <==> MtlPath(objPath) in disk && env.repairFault.Some?
    ensures run.result.Raised? ==> run.exported.None? && run.result.error == env.repairFault.value.error
    ensures run.result.Raised? && !env.repairFault.value.WriteFault? ==> run.disk == disk
    ensures run.result.Raised? && env.repairFault.value.WriteFault? ==>
      var m := MtlPath(objPath);
      && run.disk.Keys == disk.Keys
      && run.disk == disk[m := run.disk[m]]
      && run.disk[m] <= FixMissingTexture(disk, objPath).disk[m]
      && |run.disk[m]| == Min(env.repairFault.value.written, |FixMissingTexture(disk, objPath).disk[m]|)
    ensures run.result == Returned(None) ==> run.disk == FixMissingTexture(disk, objPath).disk
    ensures run.result.Returned? && run.result.output.Some? ==>
      var repaired := FixMissingTexture(disk, objPath).disk;
      && run.disk.Keys == repaired.Keys + {OutputPath(outputDir, objPath)}
      && run.disk[OutputPath(outputDir, objPath)] == env.glb
      && forall p :: p in repaired && p != OutputPath(outputDir, objPath) ==> run.disk[p] == repaired[p]
    ensures run.result == Returned(None) <==>
      !run.result.Raised? && (env.load.LoadFailed? || env.exportFault.Some?)
    ensures run.result.Returned? && run.result.output.Some? ==>
      && env.load.Loaded?
      && run.result.output.value == OutputPath(outputDir, objPath)
      && run.exported == Some(DefaultMaterials(env.load.geometry))
  {
    if MtlPath(objPath) in disk && env.repairFault.Some? then
      var fault := env.repairFault.value;
      var warnings := if fault.ReadFault? then [] else FixMissingTexture(disk, objPath).warnings;
      ConvertRun(Raised(fault.error), FaultedDisk(disk, objPath, fault), warnings, None)
    else
      var repair := FixMissingTexture(disk, objPath);
      match env.load
      case LoadFailed(_) => ConvertRun(Returned(None), repair.disk, repair.warnings, None)
      case Loaded(geometry) =>
        if env.exportFault.Some? then ConvertRun(Returned(None), repair.disk, repair.warnings, None)
        else
          ConvertRun(Returned(Some(OutputPath(outputDir, objPath))), Exported(repair.disk, OutputPath(outputDir, objPath), env.glb), repair.warnings,
                     Some(DefaultMaterials(geometry)))
  }

  function Min(a: int, b: int): int
  {
    if a <= b then a else b
  }
}
