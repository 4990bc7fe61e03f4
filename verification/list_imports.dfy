/**
 The dependency lister: it walks a directory tree, reads the module specifiers
 of every `.js`/`.jsx` file, and collects the set of package names they name,
 skipping relative and absolute paths and cutting deep imports to the package
 (or to the scope and package for `@scope/...`).
 */
module ListImports {
  import opened JsCore

  /** A file and the specifiers its `from '...'` clauses name, in order. */
  datatype SourceFile = SourceFile(name: string, specifiers: seq<string>)

  /** A directory tree as `readdirSync`/`statSync` see it. */
  datatype Node = FileNode(file: SourceFile) | DirNode(name: string, entries: seq<Node>)

  /** The package a specifier names; None for a relative or absolute path. A scope without a slash gives "@scope/undefined". */
  function PackageName(spec: string): (r: Option<string>)
    ensures r.None? <==> StartsWith(spec, ".") || StartsWith(spec, "/")
    ensures r.Some? && !StartsWith(spec, "@") ==> r.value == Split(spec, '/')[0]
    ensures r.Some? && StartsWith(spec, "@") && |Split(spec, '/')| > 1 ==>
      r.value == Split(spec, '/')[0] + "/" + Split(spec, '/')[1]
    ensures r.Some? && StartsWith(spec, "@") && '/' !in spec ==> r.value == spec + "/undefined"
  {
    if StartsWith(spec, ".") || StartsWith(spec, "/") then None
    else
      var parts := Split(spec, '/');
      if StartsWith(spec, "@") then
        Some(parts[0] + "/" + (if |parts| > 1 then parts[1] else "undefined"))
      else
        Some(parts[0])
  }

  /** A package name is its own package: the cut is idempotent. */
  lemma PackageNameIdempotent(spec: string)
    requires PackageName(spec).Some?
    ensures PackageName(PackageName(spec).value) == PackageName(spec)
  {
    if StartsWith(spec, "@") {
      var scope, name := ScopedParts(spec);
      ScopedNameIsFixed(scope, name);
    } else {
      var segment := UnscopedPart(spec);
      UnscopedNameIsFixed(segment);
    }
  }

  /** A scoped specifier names `scope/name`, both free of slashes. */
  lemma ScopedParts(spec: string) returns (scope: string, name: string)
    requires PackageName(spec).Some? && StartsWith(spec, "@")
    ensures PackageName(spec) == Some(scope + "/" + name)
    ensures scope != [] && scope[0] == '@' && '/' !in scope && '/' !in name
  {
    var parts := Split(spec, '/');
    scope := parts[0];
    SplitHead(spec, '/');
    assert spec[0] == '@';
    name := if |parts| > 1 then parts[1] else "undefined";
  }

  /** Any other package specifier names its first segment, which does not look like a path or a scope. */
  lemma UnscopedPart(spec: string) returns (segment: string)
    requires PackageName(spec).Some? && !StartsWith(spec, "@")
    ensures PackageName(spec) == Some(segment) && '/' !in segment
    ensures segment != [] ==> segment[0] != '.' && segment[0] != '/' && segment[0] != '@'
  {
    segment := Split(spec, '/')[0];
    SplitHead(spec, '/');
    assert segment != [] ==> segment[0] == spec[0];
  }

  lemma ScopedNameIsFixed(scope: string, name: string)
    requires scope != [] && scope[0] == '@' && '/' !in scope && '/' !in name
    ensures PackageName(scope + "/" + name) == Some(scope + "/" + name)
  {
    var full := scope + "/" + name;
    assert full == Join([scope, name], '/');
    SplitJoin([scope, name], '/');
    assert full[0] == '@';
    assert StartsWith(full, "@") && !StartsWith(full, ".") && !StartsWith(full, "/");
  }

  lemma UnscopedNameIsFixed(name: string)
    requires '/' !in name
    requires name != [] ==> name[0] != '.' && name[0] != '/' && name[0] != '@'
    ensures PackageName(name) == Some(name)
  {
    assert IndexOf(name, '/') == -1;
    assert !StartsWith(name, "@") && !StartsWith(name, ".") && !StartsWith(name, "/");
  }

  /** The files the lister reads. */
  predicate IsScanned(name: string) {
    EndsWith(name, ".jsx") || EndsWith(name, ".js")
  }

  /** Some specifier of the list names package `p`. */
  ghost predicate Names(specs: seq<string>, p: string) {
    exists j :: 0 <= j < |specs| && PackageName(specs[j]) == Some(p)
  }

  lemma NamesCons(specs: seq<string>, p: string)
    requires specs != []
    ensures Names(specs, p) <==> PackageName(specs[0]) == Some(p) || Names(specs[1..], p)
  {
    if Names(specs[1..], p) {
      var j :| 0 <= j < |specs[1..]| && PackageName(specs[1..][j]) == Some(p);
      assert specs[j + 1] == specs[1..][j];
    }
    if Names(specs, p) && PackageName(specs[0]) != Some(p) {
      var j :| 0 <= j < |specs| && PackageName(specs[j]) == Some(p);
      assert specs[1..][j - 1] == specs[j];
    }
  }

  /** The packages named by a list of specifiers. */
  function Packages(specs: seq<string>): (r: set<string>)
    ensures forall p :: p in r <==> Names(specs, p)
  {
    if specs == [] then {}
    else
      var rest := Packages(specs[1..]);
      var r := match PackageName(specs[0]) case Some(q) => {q} + rest case None => rest;
      assert forall p :: p in r <==> Names(specs, p) by {
        forall p
          ensures p in r <==> Names(specs, p)
        {
          NamesCons(specs, p);
        }
      }
      r
  }

  /** `getImports(dir)`: the union over the tree, descending into directories first whatever their name. */
  function Imports(n: Node): set<string>
    decreases n
  {
    match n
    case FileNode(f) => if IsScanned(f.name) then Packages(f.specifiers) else {}
    case DirNode(_, entries) => ImportsOfAll(entries)
  }

  function ImportsOfAll(entries: seq<Node>): set<string>
    decreases entries
  {
    if entries == [] then {} else Imports(entries[0]) + ImportsOfAll(entries[1..])
  }

  /** Reference definition: every scanned file in the tree, in walk order. */
  function SourceFiles(n: Node): (r: seq<SourceFile>)
    ensures forall f :: f in r ==> IsScanned(f.name)
    decreases n
  {
    match n
    case FileNode(f) => if IsScanned(f.name) then [f] else []
    case DirNode(_, entries) => SourceFilesOfAll(entries)
  }

  function SourceFilesOfAll(entries: seq<Node>): (r: seq<SourceFile>)
    ensures forall f :: f in r ==> IsScanned(f.name)
    decreases entries
  {
    if entries == [] then [] else SourceFiles(entries[0]) + SourceFilesOfAll(entries[1..])
  }

  /** A package is listed exactly when some scanned file in the tree names it. */
  lemma {:induction false} ImportsAreThoseOfSourceFiles(n: Node, p: string)
    ensures p in Imports(n) <==> exists f :: f in SourceFiles(n) && p in Packages(f.specifiers)
    decreases n
  {
    match n
    case FileNode(f) =>
      if IsScanned(f.name) {
        assert SourceFiles(n) == [f];
      }
    case DirNode(_, entries) =>
      ImportsOfAllAreThoseOfSourceFiles(entries, p);
  }

  lemma {:induction false} ImportsOfAllAreThoseOfSourceFiles(entries: seq<Node>, p: string)
    ensures p in ImportsOfAll(entries) <==> exists f :: f in SourceFilesOfAll(entries) && p in Packages(f.specifiers)
    decreases entries
  {
    if entries != [] {
      ImportsAreThoseOfSourceFiles(entries[0], p);
      ImportsOfAllAreThoseOfSourceFiles(entries[1..], p);
      assert SourceFilesOfAll(entries) == SourceFiles(entries[0]) + SourceFilesOfAll(entries[1..]);
    }
  }

  /** Every listed name is a package name in its own right, never a relative or absolute path. */
  lemma ListedNamesArePackages(n: Node, p: string)
    requires p in Imports(n)
    ensures PackageName(p) == Some(p)
    ensures !StartsWith(p, ".") && !StartsWith(p, "/")
  {
    ImportsAreThoseOfSourceFiles(n, p);
    var f :| f in SourceFiles(n) && p in Packages(f.specifiers);
    var j :| 0 <= j < |f.specifiers| && PackageName(f.specifiers[j]) == Some(p);
    PackageNameIdempotent(f.specifiers[j]);
  }
}
