/**
 The import repairer for generated UI components: each `import * from 'pkg'`
 (a namespace import that lost its name) is rewritten to
 `import * as Alias from 'pkg'` when an alias can be found, from a fixed table,
 from the file's own usage, or from a Radix package name; the file is written
 back only when at least one import was rewritten.
 */
module FixImports {
  import opened JsCore

  /** `knownAliases`. */
  function KnownAlias(pkg: string): (r: Option<string>)
    ensures r.Some? <==> pkg == "react" || pkg == "cmdk"
    ensures pkg == "react" ==> r == Some("React")
    ensures pkg == "cmdk" ==> r == Some("CommandPrimitive")
  {
    if pkg == "react" then Some("React")
    else if pkg == "cmdk" then Some("CommandPrimitive")
    else None
  }

  /**
   The two searches over the file's text as read: the alias in the first
   `const X = Alias.Root`, and the alias in the first `Alias.Member`. Both
   read the original text, so they are the same for every import in the file.
   */
  datatype Scan = Scan(rootAlias: Option<string>, usageAlias: Option<string>)

  /** An alias counts only when it is present and non-empty. */
  predicate Present(alias: Option<string>) {
    alias.Some? && Truthy(alias.value)
  }

  const RadixPrefix: string := "@radix-ui/react-"

  /** `name.charAt(0).toUpperCase() + name.slice(1) + 'Primitive'` for the last `-` segment. */
  function RadixAlias(pkg: string): (r: string)
    ensures var parts := Split(pkg, '-');
      r == UpperFirst(parts[|parts| - 1]) + "Primitive"
    ensures EndsWith(r, "Primitive")
  {
    var parts := Split(pkg, '-');
    UpperFirst(parts[|parts| - 1]) + "Primitive"
  }

  /** The alias chosen for one broken import: the table, then the `.Root` search, then any usage, then the Radix fallback. */
  function ChooseAlias(pkg: string, scan: Scan): (r: Option<string>)
    ensures KnownAlias(pkg).Some? ==> r == KnownAlias(pkg)
    ensures KnownAlias(pkg).None? && Present(scan.rootAlias) ==> r == scan.rootAlias
    ensures KnownAlias(pkg).None? && !Present(scan.rootAlias) && Present(scan.usageAlias) ==> r == scan.usageAlias
    ensures KnownAlias(pkg).None? && !Present(scan.rootAlias) && !Present(scan.usageAlias) ==>
      r == (if StartsWith(pkg, RadixPrefix) then Some(RadixAlias(pkg)) else None)
    ensures r.None? || Truthy(r.value)
  {
    var alias := if KnownAlias(pkg).Some? then KnownAlias(pkg)
      else if Present(scan.rootAlias) then scan.rootAlias
      else if Present(scan.usageAlias) then scan.usageAlias
      else None;
    if alias.None? && StartsWith(pkg, RadixPrefix) then Some(RadixAlias(pkg)) else alias
  }

  /** A file's text as the repairer sees it: plain text, broken namespace imports, and repaired ones. */
  datatype Segment = Text(text: string) | BrokenImport(pkg: string) | NamedImport(alias: string, pkg: string)

  function Render(seg: Segment): string {
    match seg
    case Text(text) => text
    case BrokenImport(pkg) => "import * from '" + pkg + "'"
    case NamedImport(alias, pkg) => "import * as " + alias + " from '" + pkg + "'"
  }

  /** The file's text: its segments rendered in order. */
  function Content(segs: seq<Segment>): string {
    if segs == [] then "" else Render(segs[0]) + Content(segs[1..])
  }

  /** One replacement: a broken import gets its alias if one is found and is kept as it was otherwise. */
  function Repair(seg: Segment, scan: Scan): (r: Segment)
    ensures !seg.BrokenImport? ==> r == seg
    ensures seg.BrokenImport? && ChooseAlias(seg.pkg, scan).Some? ==>
      r == NamedImport(ChooseAlias(seg.pkg, scan).value, seg.pkg)
    ensures seg.BrokenImport? && ChooseAlias(seg.pkg, scan).None? ==> r == seg
  {
    match seg
    case BrokenImport(pkg) =>
      (match ChooseAlias(pkg, scan)
       case Some(alias) => NamedImport(alias, pkg)
       case None => seg)
    case _ => seg
  }

  /** Whether a segment is a broken import for which an alias is found. */
  predicate Repairable(seg: Segment, scan: Scan) {
    seg.BrokenImport? && ChooseAlias(seg.pkg, scan).Some?
  }

  /** The file after `content.replace(...)`, and whether it is written back. */
  datatype Fixed = Fixed(segments: seq<Segment>, written: bool)

  function FixFile(segs: seq<Segment>, scan: Scan): (r: Fixed)
    ensures |r.segments| == |segs|
    ensures forall i :: 0 <= i < |segs| ==> r.segments[i] == Repair(segs[i], scan)
    ensures r.written <==> exists i :: 0 <= i < |segs| && Repairable(segs[i], scan)
  {
    if segs == [] then Fixed([], false)
    else
      var rest := FixFile(segs[1..], scan);
      assert forall i :: 1 <= i < |segs| ==> segs[i] == segs[1..][i - 1];
      Fixed([Repair(segs[0], scan)] + rest.segments, Repairable(segs[0], scan) || rest.written)
  }

  /** Naming a broken import lengthens its text by ` as ` and the alias; every other segment renders as before. */
  lemma RepairLengthensSegment(seg: Segment, scan: Scan)
    ensures Repairable(seg, scan) ==> |Render(Repair(seg, scan))| > |Render(seg)|
    ensures !Repairable(seg, scan) ==> Render(Repair(seg, scan)) == Render(seg)
  {
  }

  /** Repairing never shortens a file's text, and lengthens it once some import is rewritten. */
  lemma {:induction false} RepairLengthensFile(segs: seq<Segment>, scan: Scan)
    ensures |Content(FixFile(segs, scan).segments)| >= |Content(segs)|
    ensures FixFile(segs, scan).written ==> |Content(FixFile(segs, scan).segments)| > |Content(segs)|
    decreases |segs|
  {
    if segs != [] {
      var r := FixFile(segs, scan);
      var rest := FixFile(segs[1..], scan);
      RepairLengthensFile(segs[1..], scan);
      RepairLengthensSegment(segs[0], scan);
      assert r.segments[1..] == rest.segments;
      assert Content(r.segments) == Render(Repair(segs[0], scan)) + Content(rest.segments);
    }
  }

  /** A file is written back exactly when its text changes; an unwritten file is left exactly as read. */
  lemma {:induction false} WrittenIffChanged(segs: seq<Segment>, scan: Scan)
    ensures FixFile(segs, scan).written <==> Content(FixFile(segs, scan).segments) != Content(segs)
    ensures !FixFile(segs, scan).written ==> FixFile(segs, scan).segments == segs
  {
    var r := FixFile(segs, scan);
    if r.written {
      RepairLengthensFile(segs, scan);
    } else {
      assert forall i :: 0 <= i < |segs| ==> r.segments[i] == segs[i];
      assert r.segments == segs;
    }
  }

  /** A repaired file needs no further repair: a second pass with the same scan changes nothing and writes nothing. */
  lemma RepairIsIdempotent(segs: seq<Segment>, scan: Scan)
    ensures var once := FixFile(segs, scan).segments;
      FixFile(once, scan).segments == once && !FixFile(once, scan).written
  {
    var once := FixFile(segs, scan).segments;
    var twice := FixFile(once, scan);
    assert forall i :: 0 <= i < |once| ==> !Repairable(once[i], scan);
    assert forall i :: 0 <= i < |once| ==> twice.segments[i] == once[i];
  }

  /** With a usage-based alias present, every package outside the table gets that same alias, whatever the package. */
  lemma UsageAliasIsSharedByAllUnknownPackages(segs: seq<Segment>, scan: Scan, i: int, j: int)
    requires Present(scan.rootAlias) || Present(scan.usageAlias)
    requires 0 <= i < |segs| && 0 <= j < |segs|
    requires segs[i].BrokenImport? && segs[j].BrokenImport?
    requires KnownAlias(segs[i].pkg).None? && KnownAlias(segs[j].pkg).None?
    ensures FixFile(segs, scan).segments[i].alias == FixFile(segs, scan).segments[j].alias
  {
  }

  /** The Radix fallback names only the last dash-separated word of the package, so `@radix-ui/react-dropdown-menu` gets `MenuPrimitive`. */
  lemma RadixAliasUsesLastWord(prefix: string, word: string)
    requires '-' !in word
    ensures RadixAlias(prefix + "-" + word) == UpperFirst(word) + "Primitive"
  {
    var pkg := prefix + "-" + word;
    assert pkg == prefix + ['-'] + word;
    SplitLast(prefix, '-', word);
    var parts := Split(pkg, '-');
    assert parts[|parts| - 1] == word;
  }
}
