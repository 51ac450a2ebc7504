/** The Hadoop role manifests: guarded loops that grow one catalog shared by all roles of a host. */
module Catalog {
  import opened Text

  datatype Title = Package(name: string) | File(path: string) | MotdRegister(name: string)

  type Attributes = map<string, string>

  type Resources = map<Title, Attributes>

  /** Parameters of a role class; hashes are listed in their own order. */
  datatype Role = Role(name: string, packages: seq<(string, Attributes)>,
                       configurationFiles: seq<(string, seq<(string, Attributes)>)>,
                       dataMounts: seq<string>, dataMountsAttr: Attributes, dataMountsSubdirs: seq<string>)

  /** One declaration; `valid` is false when a splatted hash repeats an explicit attribute. */
  datatype Declaration = Declaration(title: Title, attributes: Attributes, valid: bool)

  // ---------- What a role declares, in evaluation order ----------

  function PackageDeclarations(packages: seq<(string, Attributes)>): seq<Declaration>
  {
    seq(|packages|, i requires 0 <= i < |packages| =>
      Declaration(Package(packages[i].0), packages[i].1, true))
  }

  /** The name of the template stands for the text it renders to. */
  function TemplateOf(name: string): string { "hadoop" + name + ".erb" }

  function FileDeclaration(name: string, a: Attributes): Declaration
  {
    Declaration(File(name), map["ensure" := "present", "content" := TemplateOf(name)] + a,
                "ensure" !in a && "content" !in a)
  }

  function FileDeclarations(files: seq<(string, Attributes)>): seq<Declaration>
  {
    seq(|files|, i requires 0 <= i < |files| => FileDeclaration(files[i].0, files[i].1))
  }

  function ConfigurationDeclarations(groups: seq<(string, seq<(string, Attributes)>)>): seq<Declaration>
  {
    if groups == [] then []
    else
      var n := |groups| - 1;
      ConfigurationDeclarations(groups[..n]) + FileDeclarations(groups[n].1)
  }

  /** The mount itself first, then its subdirectories. */
  function MountDirectories(mount: string, subdirs: seq<string>): seq<string>
  {
    var mapdirs := [""] + subdirs;
    seq(|mapdirs|, i requires 0 <= i < |mapdirs| => mount + "/" + mapdirs[i])
  }

  function DirectoryDeclarations(dirs: seq<string>, a: Attributes): seq<Declaration>
  {
    seq(|dirs|, i requires 0 <= i < |dirs| => Declaration(File(dirs[i]), a, true))
  }

  function MountDeclarations(mounts: seq<string>, subdirs: seq<string>, a: Attributes): seq<Declaration>
  {
    if mounts == [] then []
    else
      var n := |mounts| - 1;
      MountDeclarations(mounts[..n], subdirs, a) + DirectoryDeclarations(MountDirectories(mounts[n], subdirs), a)
  }

  /** The guarded declarations of a role. */
  function Guarded(r: Role): seq<Declaration>
  {
    PackageDeclarations(r.packages) + ConfigurationDeclarations(r.configurationFiles)
    + MountDeclarations(r.dataMounts, r.dataMountsSubdirs, r.dataMountsAttr)
  }

  /** Guarded declaration after guarded declaration; `None` is a failed compilation. */
  function Grow(c: Resources, ds: seq<Declaration>): Option<Resources>
  {
    if ds == [] then Some(c)
    else
      var d := ds[|ds| - 1];
      match Grow(c, ds[..|ds| - 1])
      case None => None
      case Some(g) =>
        if d.title in g then Some(g) else if !d.valid then None else Some(g[d.title := d.attributes])
  }

  // ---------- Growth ----------

  predicate Declares(ds: seq<Declaration>, t: Title) { exists i :: 0 <= i < |ds| && ds[i].title == t }

  /** The first declaration of a title. */
  function First(ds: seq<Declaration>, t: Title): Declaration
    requires Declares(ds, t)
  {
    var n := |ds| - 1;
    if Declares(ds[..n], t) then First(ds[..n], t) else ds[n]
  }

  /** Growing never alters what is there and gives every new title its first attributes; it fails
      exactly when the first declaration of a new title is invalid. */
  lemma {:induction false} GrowIsFirstWins(c: Resources, ds: seq<Declaration>)
    ensures Grow(c, ds).None? <==> exists t :: Declares(ds, t) && t !in c && !First(ds, t).valid
    ensures Grow(c, ds).Some? ==>
              var g := Grow(c, ds).value;
              && (forall t :: t in g <==> t in c || Declares(ds, t))
              && (forall t :: t in c ==> g[t] == c[t])
              && (forall t :: Declares(ds, t) && t !in c ==> g[t] == First(ds, t).attributes)
  {
    if ds != [] {
      var n := |ds| - 1;
      var before, d := ds[..n], ds[n];
      GrowIsFirstWins(c, before);
      forall t ensures Declares(ds, t) <==> Declares(before, t) || d.title == t {
        DeclaresSnoc(ds, t);
      }
      if !Declares(before, d.title) { assert First(ds, d.title) == d; }
      if Grow(c, before).None? {
        var t :| Declares(before, t) && t !in c && !First(before, t).valid;
        assert First(ds, t) == First(before, t);
      }
    }
  }

  lemma DeclaresSnoc(ds: seq<Declaration>, t: Title)
    requires ds != []
    ensures Declares(ds, t) <==> Declares(ds[..|ds| - 1], t) || ds[|ds| - 1].title == t
  {}

  lemma {:induction false} GrowConcat(c: Resources, a: seq<Declaration>, b: seq<Declaration>)
    ensures Grow(c, a + b) == (match Grow(c, a) case None => None case Some(g) => Grow(g, b))
    decreases |b|
  {
    if b == [] {
      assert a + b == a;
    } else {
      var n := |b| - 1;
      assert (a + b)[..|a + b| - 1] == a + b[..n];
      GrowConcat(c, a, b[..n]);
    }
  }

  predicate AllValid(ds: seq<Declaration>) { forall i :: 0 <= i < |ds| ==> ds[i].valid }

  lemma {:induction false} FirstIsOneOf(ds: seq<Declaration>, t: Title)
    requires Declares(ds, t)
    ensures First(ds, t) in ds && First(ds, t).title == t
  {
    var n := |ds| - 1;
    DeclaresSnoc(ds, t);
    if Declares(ds[..n], t) { FirstIsOneOf(ds[..n], t); }
  }

  /** Two lists of declarations can be swapped exactly when they agree on every title that both
      declare and the catalog does not have yet. */
  lemma OrderMattersExactlyWhen(c: Resources, a: seq<Declaration>, b: seq<Declaration>)
    requires AllValid(a) && AllValid(b)
    ensures Grow(c, a + b) == Grow(c, b + a) <==>
            forall t :: t !in c && Declares(a, t) && Declares(b, t) ==>
              First(a, t).attributes == First(b, t).attributes
  {
    ValidGrows(c, a);
    ValidGrows(c, b);
    GrowConcat(c, a, b);
    GrowConcat(c, b, a);
    GrowIsFirstWins(c, a);
    GrowIsFirstWins(c, b);
    var ga, gb := Grow(c, a).value, Grow(c, b).value;
    ValidGrows(ga, b);
    ValidGrows(gb, a);
    GrowIsFirstWins(ga, b);
    GrowIsFirstWins(gb, a);
    var gab, gba := Grow(ga, b).value, Grow(gb, a).value;
    if gab == gba {
      forall t | t !in c && Declares(a, t) && Declares(b, t)
        ensures First(a, t).attributes == First(b, t).attributes
      {
        assert gab[t] == gba[t];
      }
    }
  }

  lemma ValidGrows(c: Resources, ds: seq<Declaration>)
    requires AllValid(ds)
    ensures Grow(c, ds).Some?
  {}

  /** When declarations of the same title agree, neither order nor repetition matters: the outcome
      depends only on the set of declarations. */
  lemma AgreeingOrderIrrelevant(c: Resources, a: seq<Declaration>, b: seq<Declaration>)
    requires AllValid(a) && forall d :: d in a <==> d in b
    requires forall d, e :: d in a && e in a && d.title == e.title ==> d == e
    ensures Grow(c, a) == Grow(c, b)
  {
    assert AllValid(b) by {
      forall i | 0 <= i < |b| ensures b[i].valid { assert b[i] in a; }
    }
    ValidGrows(c, a);
    ValidGrows(c, b);
    GrowIsFirstWins(c, a);
    GrowIsFirstWins(c, b);
    forall t ensures Declares(a, t) <==> Declares(b, t) {
      if Declares(a, t) { FirstIsOneOf(a, t); }
      if Declares(b, t) { FirstIsOneOf(b, t); }
    }
    forall t | Declares(a, t) ensures First(a, t) == First(b, t) {
      FirstIsOneOf(a, t);
      FirstIsOneOf(b, t);
    }
    SameResources(Grow(c, a).value, Grow(c, b).value);
  }

  lemma SameResources(g: Resources, h: Resources)
    requires forall t :: t in g <==> t in h
    requires forall t :: t in g ==> g[t] == h[t]
    ensures g == h
  {}

  lemma GrowNothing(c: Resources)
    ensures Grow(c, []) == Some(c)
  {}

  lemma GrowNext(c: Resources, ds: seq<Declaration>, d: Declaration)
    ensures Grow(c, ds + [d]) ==
            match Grow(c, ds)
            case None => None
            case Some(g) =>
              if d.title in g then Some(g) else if !d.valid then None else Some(g[d.title := d.attributes])
  {
    assert (ds + [d])[..|ds|] == ds;
  }

  // ---------- Including roles ----------

  /** A catalog under construction and the classes already evaluated. */
  datatype Host = Host(resources: Resources, classes: set<string>)

  /** Including a class a second time does nothing; the first time its banner line is declared
      without a guard. */
  function Include(h: Host, r: Role): Option<Host>
  {
    if r.name in h.classes then Some(h)
    else if MotdRegister(r.name) in h.resources then None
    else
      match Grow(h.resources[MotdRegister(r.name) := map[]], Guarded(r))
      case None => None
      case Some(g) => Some(Host(g, h.classes + {r.name}))
  }

  function IncludeAll(h: Host, roles: seq<Role>): Option<Host>
    decreases |roles|
  {
    if roles == [] then Some(h)
    else
      match Include(h, roles[0])
      case None => None
      case Some(next) => IncludeAll(next, roles[1..])
  }

  class Compiler {
    var resources: Resources
    var classes: set<string>

    constructor ()
      ensures resources == map[] && classes == {}
    {
      resources, classes := map[], {};
    }

    /** A declaration without a guard: a title that exists aborts the compilation. */
    method Declare(d: Declaration) returns (ok: bool)
      modifies this`resources
      ensures ok == (d.title !in old(resources) && d.valid)
      ensures resources == if ok then old(resources)[d.title := d.attributes] else old(resources)
    {
      if d.title in resources || !d.valid { return false; }
      resources := resources[d.title := d.attributes];
      return true;
    }

    method DeclarePackages(packages: seq<(string, Attributes)>) returns (ok: bool)
      modifies this`resources
      ensures ok && Grow(old(resources), PackageDeclarations(packages)) == Some(resources)
    {
      hide Grow;
      GrowNothing(resources);
      assert PackageDeclarations(packages[..0]) == [];
      var i := 0;
      while i < |packages|
        invariant 0 <= i <= |packages|
        invariant Grow(old(resources), PackageDeclarations(packages[..i])) == Some(resources)
      {
        var (n, a) := packages[i];
        GrowNext(old(resources), PackageDeclarations(packages[..i]), Declaration(Package(n), a, true));
        assert PackageDeclarations(packages[..i + 1])
            == PackageDeclarations(packages[..i]) + [Declaration(Package(n), a, true)];
        if Package(n) !in resources {
          ok := Declare(Declaration(Package(n), a, true));
        }
        i := i + 1;
      }
      assert packages[..i] == packages;
      return true;
    }

    method DeclareFiles(files: seq<(string, Attributes)>) returns (ok: bool)
      modifies this`resources
      ensures ok <==> Grow(old(resources), FileDeclarations(files)).Some?
      ensures ok ==> Grow(old(resources), FileDeclarations(files)) == Some(resources)
    {
      hide Grow;
      GrowNothing(resources);
      assert FileDeclarations(files[..0]) == [];
      var i := 0;
      while i < |files|
        invariant 0 <= i <= |files|
        invariant Grow(old(resources), FileDeclarations(files[..i])) == Some(resources)
      {
        var (n, a) := files[i];
        ghost var sofar, rest := FileDeclarations(files[..i + 1]), FileDeclarations(files[i + 1..]);
        assert sofar == FileDeclarations(files[..i]) + [FileDeclaration(n, a)];
        GrowNext(old(resources), FileDeclarations(files[..i]), FileDeclaration(n, a));
        if File(n) !in resources {
          var attributes := map["ensure" := "present", "content" := TemplateOf(n)] + a;
          ok := Declare(Declaration(File(n), attributes, !("ensure" in a || "content" in a)));
          if !ok {
            GrowConcat(old(resources), sofar, rest);
            assert FileDeclarations(files) == sofar + rest;
            return false;
          }
        }
        i := i + 1;
      }
      assert files[..i] == files;
      return true;
    }

    method DeclareConfiguration(groups: seq<(string, seq<(string, Attributes)>)>) returns (ok: bool)
      modifies this`resources
      ensures ok <==> Grow(old(resources), ConfigurationDeclarations(groups)).Some?
      ensures ok ==> Grow(old(resources), ConfigurationDeclarations(groups)) == Some(resources)
    {
      hide Grow;
      GrowNothing(resources);
      var i := 0;
      while i < |groups|
        invariant 0 <= i <= |groups|
        invariant Grow(old(resources), ConfigurationDeclarations(groups[..i])) == Some(resources)
      {
        var (t, c) := groups[i];
        assert groups[..i + 1][..i] == groups[..i];
        GrowConcat(old(resources), ConfigurationDeclarations(groups[..i]), FileDeclarations(c));
        ok := DeclareFiles(c);
        if !ok {
          ConfigurationFails(old(resources), groups, i + 1);
          return false;
        }
        i := i + 1;
      }
      assert groups[..i] == groups;
      return true;
    }

    method DeclareMounts(mounts: seq<string>, attr: Attributes, subdirs: seq<string>) returns (ok: bool)
      modifies this`resources
      ensures ok && Grow(old(resources), MountDeclarations(mounts, subdirs, attr)) == Some(resources)
    {
      hide Grow;
      GrowNothing(resources);
      var i := 0;
      while i < |mounts|
        invariant 0 <= i <= |mounts|
        invariant Grow(old(resources), MountDeclarations(mounts[..i], subdirs, attr)) == Some(resources)
      {
        var dirs := MountDirectories(mounts[i], subdirs);
        assert mounts[..i + 1][..i] == mounts[..i];
        GrowConcat(old(resources), MountDeclarations(mounts[..i], subdirs, attr), DirectoryDeclarations(dirs, attr));
        DeclareDirectories(dirs, attr);
        i := i + 1;
      }
      assert mounts[..i] == mounts;
      return true;
    }

    method DeclareDirectories(dirs: seq<string>, attr: Attributes)
      modifies this`resources
      ensures Grow(old(resources), DirectoryDeclarations(dirs, attr)) == Some(resources)
    {
      hide Grow;
      GrowNothing(resources);
      assert DirectoryDeclarations(dirs[..0], attr) == [];
      var i := 0;
      while i < |dirs|
        invariant 0 <= i <= |dirs|
        invariant Grow(old(resources), DirectoryDeclarations(dirs[..i], attr)) == Some(resources)
      {
        GrowNext(old(resources), DirectoryDeclarations(dirs[..i], attr), Declaration(File(dirs[i]), attr, true));
        assert DirectoryDeclarations(dirs[..i + 1], attr)
            == DirectoryDeclarations(dirs[..i], attr) + [Declaration(File(dirs[i]), attr, true)];
        if File(dirs[i]) !in resources {
          var ok := Declare(Declaration(File(dirs[i]), attr, true));
        }
        i := i + 1;
      }
      assert dirs[..i] == dirs;
    }

    /** Evaluates a role class the first time it is included. */
    method IncludeRole(r: Role) returns (ok: bool)
      modifies this
      ensures ok <==> Include(Host(old(resources), old(classes)), r).Some?
      ensures ok ==> Include(Host(old(resources), old(classes)), r) == Some(Host(resources, classes))
    {
      hide Grow;
      if r.name in classes { return true; }
      classes := classes + {r.name};
      ok := Declare(Declaration(MotdRegister(r.name), map[], true));
      if !ok { return false; }
      ghost var start := resources;
      var configuration, mounts := ConfigurationDeclarations(r.configurationFiles),
        MountDeclarations(r.dataMounts, r.dataMountsSubdirs, r.dataMountsAttr);
      GrowConcat(start, PackageDeclarations(r.packages) + configuration, mounts);
      GrowConcat(start, PackageDeclarations(r.packages), configuration);
      ok := DeclarePackages(r.packages);
      ok := DeclareConfiguration(r.configurationFiles);
      if !ok { return false; }
      ok := DeclareMounts(r.dataMounts, r.dataMountsAttr, r.dataMountsSubdirs);
    }
  }

  /** A compilation that failed on the first groups has failed. */
  lemma {:induction false} ConfigurationFails(c: Resources, groups: seq<(string, seq<(string, Attributes)>)>, n: nat)
    requires n <= |groups| && Grow(c, ConfigurationDeclarations(groups[..n])).None?
    ensures Grow(c, ConfigurationDeclarations(groups)).None?
    decreases |groups|
  {
    hide Grow;
    if n < |groups| {
      var k := |groups| - 1;
      assert groups[..k][..n] == groups[..n];
      ConfigurationFails(c, groups[..k], n);
      GrowConcat(c, ConfigurationDeclarations(groups[..k]), FileDeclarations(groups[k].1));
    } else {
      assert groups[..n] == groups;
    }
  }
}
