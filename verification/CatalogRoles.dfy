/** What any sequence of role inclusions makes of a host's catalog. */
module CatalogRoles {
  import opened Text
  import opened Catalog

  /** Each evaluated class has its banner line, and nothing else has. */
  ghost predicate Banners(h: Host)
  {
    forall n :: MotdRegister(n) in h.resources <==> n in h.classes
  }

  /** A class name stands for one class. */
  ghost predicate OneClassPerName(roles: seq<Role>)
  {
    forall r, s :: r in roles && s in roles && r.name == s.name ==> r == s
  }

  predicate RoleDeclares(r: Role, t: Title)
  {
    t == MotdRegister(r.name) || Declares(Guarded(r), t)
  }

  function RoleAttributes(r: Role, t: Title): Attributes
    requires RoleDeclares(r, t)
  {
    if t == MotdRegister(r.name) then map[] else First(Guarded(r), t).attributes
  }

  ghost predicate SomeRoleDeclares(roles: seq<Role>, t: Title)
  {
    exists r :: r in roles && RoleDeclares(r, t)
  }

  /** The roles that are evaluated already have left their resources. */
  ghost predicate Evaluated(h: Host, roles: seq<Role>)
  {
    forall r, t :: r in roles && r.name in h.classes && RoleDeclares(r, t) ==> t in h.resources
  }

  /** No configuration-file hash repeats an explicit attribute. */
  ghost predicate Valid(roles: seq<Role>)
  {
    forall r :: r in roles ==> AllValid(Guarded(r))
  }

  lemma NoBannerGuarded(r: Role, n: string)
    ensures !Declares(Guarded(r), MotdRegister(n))
  {
    ConfigurationTitles(r.configurationFiles);
    MountTitles(r.dataMounts, r.dataMountsSubdirs, r.dataMountsAttr);
  }

  lemma {:induction false} ConfigurationTitles(groups: seq<(string, seq<(string, Attributes)>)>)
    ensures forall i :: 0 <= i < |ConfigurationDeclarations(groups)| ==>
              ConfigurationDeclarations(groups)[i].title.File?
  {
    if groups != [] { ConfigurationTitles(groups[..|groups| - 1]); }
  }

  lemma {:induction false} MountTitles(mounts: seq<string>, subdirs: seq<string>, a: Attributes)
    ensures forall i :: 0 <= i < |MountDeclarations(mounts, subdirs, a)| ==>
              var d := MountDeclarations(mounts, subdirs, a)[i];
              d.title.File? && d.attributes == a && d.valid
  {
    if mounts != [] { MountTitles(mounts[..|mounts| - 1], subdirs, a); }
  }

  /** One inclusion: exactly the role's titles are added, with its attributes; nothing is altered. */
  ghost predicate Grows(h: Host, next: Host, r: Role)
  {
    && next.classes == h.classes + {r.name}
    && (forall t :: t in next.resources <==> t in h.resources || RoleDeclares(r, t))
    && Keeps(h, next)
    && (forall t :: RoleDeclares(r, t) && t !in h.resources ==> next.resources[t] == RoleAttributes(r, t))
  }

  ghost predicate Keeps(h: Host, g: Host)
  {
    forall t :: t in h.resources ==> t in g.resources && g.resources[t] == h.resources[t]
  }

  lemma IncludeNew(h: Host, r: Role)
    requires Banners(h) && AllValid(Guarded(r)) && r.name !in h.classes
    ensures var next := Include(h, r);
            next.Some? && Banners(next.value) && Grows(h, next.value, r)
  {
    hide Guarded;
    var start := h.resources[MotdRegister(r.name) := map[]];
    assert MotdRegister(r.name) !in h.resources;
    ValidGrows(start, Guarded(r));
    GrowIsFirstWins(start, Guarded(r));
    forall n ensures !Declares(Guarded(r), MotdRegister(n)) { NoBannerGuarded(r, n); }
  }

  /** Included for the first time or again, a class grows the catalog by its own resources. */
  lemma IncludeGrows(h: Host, roles: seq<Role>)
    requires roles != [] && Banners(h) && Valid(roles) && Evaluated(h, roles)
    ensures var next := Include(h, roles[0]);
            next.Some? && Banners(next.value) && Grows(h, next.value, roles[0])
  {
    hide Guarded, RoleAttributes, RoleDeclares;
    var r := roles[0];
    assert r in roles;
    if r.name in h.classes {
      assert h.classes == h.classes + {r.name};
    } else {
      IncludeNew(h, r);
    }
  }

  function Names(roles: seq<Role>): set<string> { set r | r in roles :: r.name }

  /** The titles after a sequence of inclusions are the union. */
  ghost predicate UnionOf(h: Host, g: Host, roles: seq<Role>)
  {
    && g.classes == h.classes + Names(roles)
    && forall t :: t in g.resources <==> t in h.resources || SomeRoleDeclares(roles, t)
  }

  /** The first role that declares a title gives its attributes. */
  ghost predicate FirstDeclarerWins(h: Host, g: Host, roles: seq<Role>)
  {
    forall t :: t in g.resources && t !in h.resources ==>
      exists i :: 0 <= i < |roles| && RoleDeclares(roles[i], t)
        && (forall j :: 0 <= j < i ==> !RoleDeclares(roles[j], t))
        && g.resources[t] == RoleAttributes(roles[i], t)
  }

  /** Any sequence of inclusions compiles, never declaring a title twice: existing resources stay
      as they were, the titles are the union, and a new one has the attributes of the first role
      in the sequence that declares it. */
  lemma {:induction false} IncludeAllIsFirstWins(h: Host, roles: seq<Role>)
    requires Banners(h) && Valid(roles) && OneClassPerName(roles) && Evaluated(h, roles)
    ensures var g := IncludeAll(h, roles);
            && g.Some? && Banners(g.value) && UnionOf(h, g.value, roles) && Keeps(h, g.value)
            && FirstDeclarerWins(h, g.value, roles)
    decreases |roles|
  {
    if roles == [] {
      NothingIncluded(h);
    } else {
      IncludeGrows(h, roles);
      hide *;
      var next := Include(h, roles[0]).value;
      RestHypotheses(h, next, roles);
      IncludeAllIsFirstWins(next, roles[1..]);
      Unfold(h, next, roles);
      var g := IncludeAll(next, roles[1..]).value;
      KeepsFromRest(h, next, g, roles);
      UnionFromRest(h, next, g, roles);
      FirstFromRest(h, next, g, roles);
    }
  }

  lemma NothingIncluded(h: Host)
    ensures IncludeAll(h, []) == Some(h) && UnionOf(h, h, []) && Keeps(h, h) && FirstDeclarerWins(h, h, [])
  {
    assert h.classes == h.classes + Names([]);
  }

  lemma Unfold(h: Host, next: Host, roles: seq<Role>)
    requires roles != [] && Include(h, roles[0]) == Some(next)
    ensures IncludeAll(h, roles) == IncludeAll(next, roles[1..])
  {}

  lemma RestHypotheses(h: Host, next: Host, roles: seq<Role>)
    requires roles != [] && Grows(h, next, roles[0])
    requires Valid(roles) && OneClassPerName(roles) && Evaluated(h, roles)
    ensures Valid(roles[1..]) && OneClassPerName(roles[1..]) && Evaluated(next, roles[1..])
  {}

  lemma KeepsFromRest(h: Host, next: Host, g: Host, roles: seq<Role>)
    requires roles != [] && Grows(h, next, roles[0]) && Keeps(next, g)
    ensures Keeps(h, g)
  {}

  lemma UnionFromRest(h: Host, next: Host, g: Host, roles: seq<Role>)
    requires roles != [] && Grows(h, next, roles[0]) && UnionOf(next, g, roles[1..])
    ensures UnionOf(h, g, roles)
  {}

  lemma FirstFromRest(h: Host, next: Host, g: Host, roles: seq<Role>)
    requires roles != [] && Grows(h, next, roles[0]) && Keeps(next, g) && FirstDeclarerWins(next, g, roles[1..])
    ensures FirstDeclarerWins(h, g, roles)
  {}

  /** Including the same roles again changes nothing. */
  lemma {:induction false} IncludeAllIdempotent(h: Host, roles: seq<Role>)
    requires forall r :: r in roles ==> r.name in h.classes
    ensures IncludeAll(h, roles) == Some(h)
    decreases |roles|
  {
    if roles != [] {
      assert roles[0] in roles;
      IncludeAllIdempotent(h, roles[1..]);
    }
  }

  /** Roles that agree on what they both declare may be included in any order. */
  lemma IncludeOrderIrrelevant(h: Host, a: seq<Role>, b: seq<Role>)
    requires Banners(h) && Valid(a) && OneClassPerName(a) && Evaluated(h, a)
    requires forall r :: r in a <==> r in b
    requires forall r, s, t :: r in a && s in a && RoleDeclares(r, t) && RoleDeclares(s, t) && t !in h.resources ==>
               RoleAttributes(r, t) == RoleAttributes(s, t)
    ensures IncludeAll(h, a) == IncludeAll(h, b)
  {
    hide RoleDeclares, RoleAttributes, IncludeAll;
    IncludeAllIsFirstWins(h, a);
    IncludeAllIsFirstWins(h, b);
    var ga, gb := IncludeAll(h, a).value, IncludeAll(h, b).value;
    forall t ensures SomeRoleDeclares(a, t) <==> SomeRoleDeclares(b, t) {}
    forall t | t in ga.resources ensures ga.resources[t] == gb.resources[t] {
      if t !in h.resources {
        var i :| 0 <= i < |a| && RoleDeclares(a[i], t) && ga.resources[t] == RoleAttributes(a[i], t);
        var j :| 0 <= j < |b| && RoleDeclares(b[j], t) && gb.resources[t] == RoleAttributes(b[j], t);
        assert a[i] in a && b[j] in a;
      }
    }
    SameResources(ga.resources, gb.resources);
    assert ga.classes == gb.classes;
  }

  // ---------- Configuration files ----------

  /** A configuration file that no earlier resource claims is present with its template's text and
      the attributes of its own hash. */
  lemma ConfigurationFileDeclared(c: Resources, r: Role, g: nat, i: nat)
    requires AllValid(Guarded(r)) && g < |r.configurationFiles| && i < |r.configurationFiles[g].1|
    requires var f := r.configurationFiles[g].1[i];
             && File(f.0) !in c
             && (forall d :: d in Guarded(r) && d.title == File(f.0) ==> d == FileDeclaration(f.0, f.1))
    ensures var f := r.configurationFiles[g].1[i];
            var grown := Grow(c, Guarded(r));
            && grown.Some? && File(f.0) in grown.value
            && "ensure" in grown.value[File(f.0)] && grown.value[File(f.0)]["ensure"] == "present"
            && "content" in grown.value[File(f.0)] && grown.value[File(f.0)]["content"] == "hadoop" + f.0 + ".erb"
            && (forall k :: k in f.1 ==> k in grown.value[File(f.0)] && grown.value[File(f.0)][k] == f.1[k])
  {
    var f := r.configurationFiles[g].1[i];
    ConfigurationDeclared(r.configurationFiles, g, i);
    var configuration := ConfigurationDeclarations(r.configurationFiles);
    var k :| 0 <= k < |configuration| && configuration[k] == FileDeclaration(f.0, f.1);
    assert Guarded(r)[|PackageDeclarations(r.packages)| + k] == configuration[k];
    assert Declares(Guarded(r), File(f.0));
    FirstIsOneOf(Guarded(r), File(f.0));
    ValidGrows(c, Guarded(r));
    GrowIsFirstWins(c, Guarded(r));
    assert FileDeclaration(f.0, f.1).valid;
  }

  lemma {:induction false} ConfigurationDeclared(groups: seq<(string, seq<(string, Attributes)>)>, g: nat, i: nat)
    requires g < |groups| && i < |groups[g].1|
    ensures FileDeclaration(groups[g].1[i].0, groups[g].1[i].1) in ConfigurationDeclarations(groups)
    decreases |groups|
  {
    var n := |groups| - 1;
    if g < n {
      ConfigurationDeclared(groups[..n], g, i);
    } else {
      assert FileDeclarations(groups[n].1)[i] == FileDeclaration(groups[g].1[i].0, groups[g].1[i].1);
    }
  }

  // ---------- Directories ----------

  /** Every parent of a listed subdirectory is listed too. */
  ghost predicate ParentClosed(subdirs: seq<string>)
  {
    forall s, k :: s in subdirs && 0 < k < |s| && s[k] == '/' ==> s[..k] in subdirs
  }

  function IndexOf(s: seq<string>, x: string): (i: nat)
    requires x in s
    ensures i < |s| && s[i] == x
  {
    if s[0] == x then 0 else 1 + IndexOf(s[1..], x)
  }

  lemma {:induction false} MountDeclared(mounts: seq<string>, subdirs: seq<string>, a: Attributes, m: string, s: string)
    requires m in mounts && (s == "" || s in subdirs)
    ensures Declares(MountDeclarations(mounts, subdirs, a), File(m + "/" + s))
  {
    var n := |mounts| - 1;
    var before, dirs := MountDeclarations(mounts[..n], subdirs, a), MountDirectories(mounts[n], subdirs);
    var own := DirectoryDeclarations(dirs, a);
    var all := MountDeclarations(mounts, subdirs, a);
    assert all == before + own;
    if m == mounts[n] {
      var mapdirs := [""] + subdirs;
      var i := if s == "" then 0 else 1 + IndexOf(subdirs, s);
      assert dirs[i] == m + "/" + s;
      assert all[|before| + i] == own[i];
      assert own[i].title == File(m + "/" + s);
    } else {
      MountDeclared(mounts[..n], subdirs, a, m, s);
      var i :| 0 <= i < |before| && before[i].title == File(m + "/" + s);
      assert all[i] == before[i];
    }
  }

  lemma RoleDeclaresMount(r: Role, m: string, s: string)
    requires m in r.dataMounts && (s == "" || s in r.dataMountsSubdirs)
    ensures RoleDeclares(r, File(m + "/" + s))
  {
    var mounts := MountDeclarations(r.dataMounts, r.dataMountsSubdirs, r.dataMountsAttr);
    MountDeclared(r.dataMounts, r.dataMountsSubdirs, r.dataMountsAttr, m, s);
    var i :| 0 <= i < |mounts| && mounts[i].title == File(m + "/" + s);
    var all := Guarded(r);
    assert all[|all| - |mounts| + i] == mounts[i];
  }

  /** With a parent-closed list, each included role leaves every directory below its mounts together
      with all the directories above it, down from the mount itself. */
  lemma ParentsDeclared(h: Host, roles: seq<Role>, r: Role, m: string, s: string)
    requires Banners(h) && Valid(roles) && OneClassPerName(roles) && Evaluated(h, roles)
    requires r in roles && m in r.dataMounts && s in r.dataMountsSubdirs && ParentClosed(r.dataMountsSubdirs)
    ensures var g := IncludeAll(h, roles);
            && g.Some? && File(m + "/") in g.value.resources && File(m + "/" + s) in g.value.resources
            && forall k :: 0 <= k < |s| && s[k] == '/' ==> File(m + "/" + s[..k]) in g.value.resources
  {
    hide RoleDeclares, IncludeAll, RoleAttributes, Valid, Evaluated, Banners, OneClassPerName;
    IncludeAllIsFirstWins(h, roles);
    RoleDeclaresMount(r, m, "");
    assert m + "/" + "" == m + "/";
    RoleDeclaresMount(r, m, s);
    forall k | 0 <= k < |s| && s[k] == '/' ensures RoleDeclares(r, File(m + "/" + s[..k])) {
      RoleDeclaresMount(r, m, s[..k]);
    }
  }

  /** Of two roles, the one included first gives the attributes. */
  lemma FirstOfTwo(h: Host, a: Role, b: Role, t: Title)
    requires Banners(h) && Valid([a, b]) && OneClassPerName([a, b]) && Evaluated(h, [a, b])
    requires t !in h.resources && RoleDeclares(a, t)
    ensures var g := IncludeAll(h, [a, b]);
            g.Some? && t in g.value.resources && g.value.resources[t] == RoleAttributes(a, t)
  {
    hide RoleDeclares, RoleAttributes, IncludeAll, Banners, Valid, OneClassPerName, Evaluated;
    var roles := [a, b];
    IncludeAllIsFirstWins(h, roles);
    var g := IncludeAll(h, roles).value;
    assert a in roles && SomeRoleDeclares(roles, t);
    var i :| 0 <= i < |roles| && RoleDeclares(roles[i], t)
             && (forall j :: 0 <= j < i ==> !RoleDeclares(roles[j], t))
             && g.resources[t] == RoleAttributes(roles[i], t);
    assert roles[0] == a;
  }

  lemma Swapped(h: Host, a: Role, b: Role)
    requires Valid([a, b]) && OneClassPerName([a, b]) && Evaluated(h, [a, b])
    ensures Valid([b, a]) && OneClassPerName([b, a]) && Evaluated(h, [b, a])
  {
    hide RoleDeclares, AllValid, Guarded;
    assert forall r :: r in [a, b] <==> r in [b, a];
  }

  /** Two roles may be included in either order exactly when they agree on every title that both
      declare and the host does not have yet. */
  lemma RoleOrderMattersExactlyWhen(h: Host, a: Role, b: Role)
    requires Banners(h) && Valid([a, b]) && OneClassPerName([a, b]) && Evaluated(h, [a, b])
    ensures IncludeAll(h, [a, b]) == IncludeAll(h, [b, a]) <==>
            forall t :: t !in h.resources && RoleDeclares(a, t) && RoleDeclares(b, t) ==>
              RoleAttributes(a, t) == RoleAttributes(b, t)
  {
    hide RoleDeclares, RoleAttributes, IncludeAll, Banners, Valid, OneClassPerName, Evaluated;
    Swapped(h, a, b);
    if IncludeAll(h, [a, b]) == IncludeAll(h, [b, a]) {
      forall t | t !in h.resources && RoleDeclares(a, t) && RoleDeclares(b, t)
        ensures RoleAttributes(a, t) == RoleAttributes(b, t)
      {
        FirstOfTwo(h, a, b, t);
        FirstOfTwo(h, b, a, t);
      }
    }
    if forall t :: t !in h.resources && RoleDeclares(a, t) && RoleDeclares(b, t) ==>
         RoleAttributes(a, t) == RoleAttributes(b, t) {
      AgreeingPair(h, a, b);
    }
  }

  lemma AgreeingPair(h: Host, a: Role, b: Role)
    requires Banners(h) && Valid([a, b]) && OneClassPerName([a, b]) && Evaluated(h, [a, b])
    requires forall t :: t !in h.resources && RoleDeclares(a, t) && RoleDeclares(b, t) ==>
               RoleAttributes(a, t) == RoleAttributes(b, t)
    ensures IncludeAll(h, [a, b]) == IncludeAll(h, [b, a])
  {
    hide RoleDeclares, RoleAttributes, IncludeAll, Banners, Valid, OneClassPerName, Evaluated;
    assert forall r :: r in [a, b] <==> r in [b, a];
    IncludeOrderIrrelevant(h, [a, b], [b, a]);
  }

  /** Two roles that mount the same directory with different attributes produce hosts that depend on
      which was included first. */
  lemma SharedMountOrderMatters(h: Host, a: Role, b: Role, m: string)
    requires Banners(h) && Valid([a, b]) && OneClassPerName([a, b]) && Evaluated(h, [a, b])
    requires m in a.dataMounts && m in b.dataMounts && a.dataMountsAttr != b.dataMountsAttr
    requires File(m + "/") !in h.resources
    requires !Declares(ConfigurationDeclarations(a.configurationFiles), File(m + "/"))
    requires !Declares(ConfigurationDeclarations(b.configurationFiles), File(m + "/"))
    ensures IncludeAll(h, [a, b]) != IncludeAll(h, [b, a])
  {
    RoleOrderMattersExactlyWhen(h, a, b);
    MountAttributes(a, m);
    MountAttributes(b, m);
  }

  // ---------- The roles as the repository's data configures them ----------

  const VERSION := "2.6.0+cdh5.14.0+2715-1.cdh5.14.0.p0.47~jessie-cdh5.14.0"

  const CONF := "/etc/hadoop/conf-puppet/"

  function PlainFile(name: string): (r: (string, Attributes))
    ensures CONF <= r.0 && r.1 == map[]
  {
    (CONF + name, map[])
  }

  /** hadoop::config::configuration_files. */
  const HADOOP_FILES: seq<(string, seq<(string, Attributes)>)> := [
    ("base", [PlainFile("hadoop-metrics.properties"), PlainFile("hadoop-metrics2.properties"),
              PlainFile("log4j.properties"), PlainFile("hadoop-env.sh"), PlainFile("core-site.xml")]),
    ("exec", [(CONF + "topology.py", map["mode" := "0755"])]),
    ("hdfs", [PlainFile("hdfs-site.xml"), PlainFile("masters"), PlainFile("slaves")]),
    ("mapred", [PlainFile("mapred-env.sh"), PlainFile("mapred-site.xml"), PlainFile("fair-scheduler.xml")]),
    ("yarn", [PlainFile("yarn-env.sh"), PlainFile("yarn-site.xml"), PlainFile("capacity-scheduler.xml")])]

  const DFSSLAVE := Role("hadoop::roles::dfsslave", [("hadoop-hdfs-datanode", map["ensure" := VERSION])],
                         HADOOP_FILES, ["/DATA1", "/DATA2"],
                         map["ensure" := "directory", "owner" := "hdfs", "group" := "hadoop"],
                         ["hadoop-datastore", "hadoop-datastore/dfs"])

  const NODEMANAGER := Role("hadoop::roles::nodemanager",
                            [("hadoop-yarn-nodemanager", map["ensure" := VERSION]),
                             ("hadoop-mapreduce", map["ensure" := VERSION])],
                            HADOOP_FILES, ["/DATA1", "/DATA2"],
                            map["ensure" := "directory", "owner" := "yarn", "group" := "yarn", "mode" := "0755"],
                            ["hadoop-datastore", "hadoop-datastore/yarn", "hadoop-datastore/yarn/logs", "tmp",
                             "tmp/flink"])

  /** On a fresh host the two roles do produce different hosts, depending on which comes first: the
      owner of the data directories differs. */
  lemma DatanodeNodemanagerOrderMatters()
    ensures var start := Host(map[], {});
            && IncludeAll(start, [DFSSLAVE, NODEMANAGER]).Some?
            && IncludeAll(start, [NODEMANAGER, DFSSLAVE]).Some?
            && IncludeAll(start, [DFSSLAVE, NODEMANAGER]) != IncludeAll(start, [NODEMANAGER, DFSSLAVE])
  {
    HadoopFilesPlain();
    hide HADOOP_FILES, Plain, IncludeAll;
    assert "owner" in DFSSLAVE.dataMountsAttr && DFSSLAVE.dataMountsAttr["owner"] == "hdfs";
    assert "owner" in NODEMANAGER.dataMountsAttr && NODEMANAGER.dataMountsAttr["owner"] == "yarn";
    assert "/DATA1" == DFSSLAVE.dataMounts[0] == NODEMANAGER.dataMounts[0];
    FreshHostOrderMatters(DFSSLAVE, NODEMANAGER);
  }

  lemma FreshHostOrderMatters(a: Role, b: Role)
    requires Plain(a.configurationFiles) && Plain(b.configurationFiles) && a.name != b.name
    requires "/DATA1" in a.dataMounts && "/DATA1" in b.dataMounts && a.dataMountsAttr != b.dataMountsAttr
    ensures var start := Host(map[], {});
            && IncludeAll(start, [a, b]).Some? && IncludeAll(start, [b, a]).Some?
            && IncludeAll(start, [a, b]) != IncludeAll(start, [b, a])
  {
    PlainRole(a);
    PlainRole(b);
    hide Guarded, RoleDeclares, RoleAttributes, IncludeAll, AllValid, Declares, Plain;
    var start := Host(map[], {});
    assert "/DATA1" + "/" == "/DATA1/";
    Swapped(start, a, b);
    IncludeAllIsFirstWins(start, [a, b]);
    IncludeAllIsFirstWins(start, [b, a]);
    SharedMountOrderMatters(start, a, b, "/DATA1");
  }

  /** Files below the configuration directory whose hashes repeat no explicit attribute. */
  ghost predicate Plain(groups: seq<(string, seq<(string, Attributes)>)>)
  {
    forall g, f :: g in groups && f in g.1 ==> CONF <= f.0 && "ensure" !in f.1 && "content" !in f.1
  }

  lemma HadoopFilesPlain()
    ensures Plain(HADOOP_FILES)
  {
    hide CONF, PlainFile;
  }

  lemma {:induction false} PlainDeclarations(groups: seq<(string, seq<(string, Attributes)>)>)
    requires Plain(groups)
    ensures AllValid(ConfigurationDeclarations(groups))
    ensures forall d :: d in ConfigurationDeclarations(groups) ==> d.title.File? && CONF <= d.title.path
  {
    if groups != [] {
      var n := |groups| - 1;
      PlainDeclarations(groups[..n]);
      assert groups[n] in groups;
      var files := FileDeclarations(groups[n].1);
      forall i | 0 <= i < |files| ensures files[i].valid && CONF <= files[i].title.path {
        assert groups[n].1[i] in groups[n].1;
      }
    }
  }

  lemma PlainRole(r: Role)
    requires Plain(r.configurationFiles)
    ensures AllValid(Guarded(r)) && !Declares(ConfigurationDeclarations(r.configurationFiles), File("/DATA1/"))
  {
    var configuration := ConfigurationDeclarations(r.configurationFiles);
    PlainDeclarations(r.configurationFiles);
    MountTitles(r.dataMounts, r.dataMountsSubdirs, r.dataMountsAttr);
    assert !(CONF <= "/DATA1/") by { assert CONF[1] == 'e' && "/DATA1/"[1] == 'D'; }
  }

  lemma MountAttributes(r: Role, m: string)
    requires m in r.dataMounts
    requires !Declares(ConfigurationDeclarations(r.configurationFiles), File(m + "/"))
    ensures Declares(Guarded(r), File(m + "/"))
    ensures First(Guarded(r), File(m + "/")).attributes == r.dataMountsAttr
  {
    var packages, configuration := PackageDeclarations(r.packages), ConfigurationDeclarations(r.configurationFiles);
    var mounts := MountDeclarations(r.dataMounts, r.dataMountsSubdirs, r.dataMountsAttr);
    var t := File(m + "/");
    assert m + "/" + "" == m + "/";
    RoleDeclaresMount(r, m, "");
    FirstIsOneOf(Guarded(r), t);
    MountTitles(r.dataMounts, r.dataMountsSubdirs, r.dataMountsAttr);
    var d := First(Guarded(r), t);
    assert d in packages || d in configuration || d in mounts;
    assert d !in packages;
    NotDeclared(configuration, t);
  }

  lemma NotDeclared(ds: seq<Declaration>, t: Title)
    requires !Declares(ds, t)
    ensures forall d :: d in ds ==> d.title != t
  {}

  // ---------- What a role declares, parameter by parameter ----------

  /** One of the role's packages, with the attributes of its hash. */
  ghost predicate IsPackage(r: Role, t: Title, a: Attributes)
  {
    exists i :: 0 <= i < |r.packages| && t == Package(r.packages[i].0) && a == r.packages[i].1
  }

  /** One of its configuration files, present, with the text of its template and the attributes of its hash. */
  ghost predicate IsConfigurationFile(r: Role, t: Title, a: Attributes)
  {
    exists g, i :: 0 <= g < |r.configurationFiles| && 0 <= i < |r.configurationFiles[g].1|
                   && IsFile(t, a, r.configurationFiles[g].1[i])
  }

  predicate IsFile(t: Title, a: Attributes, f: (string, Attributes))
  {
    t == File(f.0) && a == map["ensure" := "present", "content" := "hadoop" + f.0 + ".erb"] + f.1
  }

  /** One of its mounts or a listed directory below one, with the attributes for mounts. */
  ghost predicate IsDirectory(r: Role, t: Title, a: Attributes)
  {
    a == r.dataMountsAttr && Below(r.dataMounts, r.dataMountsSubdirs, t)
  }

  ghost predicate Lists(r: Role, t: Title, a: Attributes)
  {
    IsPackage(r, t, a) || IsConfigurationFile(r, t, a) || IsDirectory(r, t, a)
  }

  /** One of the declarations gives the title these attributes. */
  ghost predicate Gives(ds: seq<Declaration>, t: Title, a: Attributes)
  {
    exists d :: d in ds && d.title == t && d.attributes == a
  }

  lemma GivesConcat(x: seq<Declaration>, y: seq<Declaration>, t: Title, a: Attributes)
    ensures Gives(x + y, t, a) <==> Gives(x, t, a) || Gives(y, t, a)
  {
    if d :| d in x + y && d.title == t && d.attributes == a { assert d in x || d in y; }
    if d :| d in x && d.title == t && d.attributes == a { assert d in x + y; }
    if d :| d in y && d.title == t && d.attributes == a { assert d in x + y; }
  }

  /** The guarded declarations of a role are its packages, configuration files and directories, and no
      others. */
  lemma GuardedExactly(r: Role, t: Title, a: Attributes)
    ensures Gives(Guarded(r), t, a) <==> Lists(r, t, a)
  {
    var p, c := PackageDeclarations(r.packages), ConfigurationDeclarations(r.configurationFiles);
    var m := MountDeclarations(r.dataMounts, r.dataMountsSubdirs, r.dataMountsAttr);
    PackagesExactly(r, t, a);
    ConfigurationExactly(r.configurationFiles, t, a);
    MountsExactly(r.dataMounts, r.dataMountsSubdirs, r.dataMountsAttr, t, a);
    GivesConcat(p + c, m, t, a);
    GivesConcat(p, c, t, a);
    hide Gives, IsFile;
  }

  lemma PackagesExactly(r: Role, t: Title, a: Attributes)
    ensures Gives(PackageDeclarations(r.packages), t, a) <==> IsPackage(r, t, a)
  {
    var p := PackageDeclarations(r.packages);
    if IsPackage(r, t, a) {
      var i :| 0 <= i < |r.packages| && t == Package(r.packages[i].0) && a == r.packages[i].1;
      assert p[i] in p;
    }
  }

  lemma {:induction false} ConfigurationExactly(groups: seq<(string, seq<(string, Attributes)>)>, t: Title,
                                               a: Attributes)
    ensures Gives(ConfigurationDeclarations(groups), t, a) <==>
            exists g, i :: 0 <= g < |groups| && 0 <= i < |groups[g].1| && IsFile(t, a, groups[g].1[i])
  {
    if groups != [] {
      var n := |groups| - 1;
      ConfigurationExactly(groups[..n], t, a);
      FilesExactly(groups[n].1, t, a);
      GivesConcat(ConfigurationDeclarations(groups[..n]), FileDeclarations(groups[n].1), t, a);
      hide Gives, IsFile;
      if g, i :| 0 <= g < |groups| && 0 <= i < |groups[g].1| && IsFile(t, a, groups[g].1[i]) {
        if g < n { assert groups[..n][g] == groups[g]; }
      }
      if g, i :| 0 <= g < n && 0 <= i < |groups[..n][g].1| && IsFile(t, a, groups[..n][g].1[i]) {
        assert groups[g] == groups[..n][g];
      }
    }
  }

  lemma FilesExactly(files: seq<(string, Attributes)>, t: Title, a: Attributes)
    ensures Gives(FileDeclarations(files), t, a) <==> exists i :: 0 <= i < |files| && IsFile(t, a, files[i])
  {
    var own := FileDeclarations(files);
    if i :| 0 <= i < |files| && IsFile(t, a, files[i]) {
      assert own[i] in own;
    }
  }

  ghost predicate Below(mounts: seq<string>, subdirs: seq<string>, t: Title)
  {
    exists m :: m in mounts && At(m, subdirs, t)
  }

  ghost predicate At(m: string, subdirs: seq<string>, t: Title)
  {
    t == File(m + "/") || exists s :: s in subdirs && t == File(m + "/" + s)
  }

  lemma {:induction false} MountsExactly(mounts: seq<string>, subdirs: seq<string>, attr: Attributes, t: Title,
                                        a: Attributes)
    ensures Gives(MountDeclarations(mounts, subdirs, attr), t, a) <==> Below(mounts, subdirs, t) && a == attr
  {
    if mounts != [] {
      var n := |mounts| - 1;
      MountsExactly(mounts[..n], subdirs, attr, t, a);
      DirectoriesExactly(mounts[n], subdirs, attr, t, a);
      GivesConcat(MountDeclarations(mounts[..n], subdirs, attr),
                  DirectoryDeclarations(MountDirectories(mounts[n], subdirs), attr), t, a);
      hide Gives;
      BelowLast(mounts, subdirs, t);
      hide Below;
    }
  }

  lemma BelowLast(mounts: seq<string>, subdirs: seq<string>, t: Title)
    requires mounts != []
    ensures Below(mounts, subdirs, t) <==>
            Below(mounts[..|mounts| - 1], subdirs, t) || Below([mounts[|mounts| - 1]], subdirs, t)
  {
    var n := |mounts| - 1;
    assert forall m :: m in mounts <==> m in mounts[..n] || m == mounts[n];
    hide At;
  }

  lemma DirectoriesExactly(m: string, subdirs: seq<string>, attr: Attributes, t: Title, a: Attributes)
    ensures Gives(DirectoryDeclarations(MountDirectories(m, subdirs), attr), t, a)
            <==> Below([m], subdirs, t) && a == attr
  {
    var own, mapdirs := DirectoryDeclarations(MountDirectories(m, subdirs), attr), [""] + subdirs;
    assert m + "/" + "" == m + "/";
    assert Below([m], subdirs, t) <==> At(m, subdirs, t) by { assert m in [m]; hide At; }
    assert own[0] in own && own[0].title == File(m + "/");
    if s :| s in subdirs && t == File(m + "/" + s) {
      var i := 1 + IndexOf(subdirs, s);
      assert own[i] in own && own[i].title == File(m + "/" + s);
    }
    if d :| d in own && d.title == t && d.attributes == a {
      var i :| 0 <= i < |own| && own[i] == d;
      assert mapdirs[i] == "" || mapdirs[i] in subdirs;
    }
  }

  // ---------- What a host ends up with ----------

  /** What a role asks for: its banner line, and what its parameters list. */
  ghost predicate AsksFor(r: Role, t: Title, a: Attributes)
  {
    (t == MotdRegister(r.name) && a == map[]) || Lists(r, t, a)
  }

  lemma DeclaresAsked(r: Role, t: Title)
    ensures RoleDeclares(r, t) <==> exists a :: AsksFor(r, t, a)
    ensures RoleDeclares(r, t) ==> AsksFor(r, t, RoleAttributes(r, t))
  {
    NoBannerGuarded(r, r.name);
    if Declares(Guarded(r), t) {
      FirstIsOneOf(Guarded(r), t);
      GuardedExactly(r, t, First(Guarded(r), t).attributes);
      assert AsksFor(r, t, RoleAttributes(r, t));
    }
    hide Guarded, Lists, First;
    if t == MotdRegister(r.name) {
      assert AsksFor(r, t, map[]);
    } else if a :| AsksFor(r, t, a) {
      GuardedExactly(r, t, a);
      var d :| d in Guarded(r) && d.title == t && d.attributes == a;
      var i :| 0 <= i < |Guarded(r)| && Guarded(r)[i] == d;
      assert Declares(Guarded(r), t);
    }
  }

  /** Included in any order, roles add exactly what they ask for to what the host has; a new resource has
      the attributes one of them asks for it with. */
  lemma ResourcesExactly(h: Host, roles: seq<Role>, t: Title)
    requires Banners(h) && Valid(roles) && OneClassPerName(roles) && Evaluated(h, roles)
    ensures var g := IncludeAll(h, roles);
            && g.Some?
            && (t in g.value.resources <==> t in h.resources || exists r, a :: r in roles && AsksFor(r, t, a))
            && (t in h.resources ==> g.value.resources[t] == h.resources[t])
            && (t in g.value.resources && t !in h.resources ==>
                  exists r :: r in roles && AsksFor(r, t, g.value.resources[t]))
  {
    hide RoleDeclares, RoleAttributes, IncludeAll, Banners, Valid, OneClassPerName, Evaluated, AsksFor;
    IncludeAllIsFirstWins(h, roles);
    forall r | r in roles
      ensures RoleDeclares(r, t) <==> exists a :: AsksFor(r, t, a)
      ensures RoleDeclares(r, t) ==> AsksFor(r, t, RoleAttributes(r, t))
    {
      DeclaresAsked(r, t);
    }
    var g := IncludeAll(h, roles).value;
    if t in g.resources && t !in h.resources {
      var i :| 0 <= i < |roles| && RoleDeclares(roles[i], t) && g.resources[t] == RoleAttributes(roles[i], t);
      assert roles[i] in roles;
    }
  }

  /** A package of an included role is on the host, with its own attributes unless the host had it before
      or another role asks for it with others. */
  lemma PackageDeclared(h: Host, roles: seq<Role>, r: Role, i: nat)
    requires Banners(h) && Valid(roles) && OneClassPerName(roles) && Evaluated(h, roles)
    requires r in roles && i < |r.packages|
    ensures var g, t := IncludeAll(h, roles), Package(r.packages[i].0);
            && g.Some? && t in g.value.resources
            && (t !in h.resources
                && (forall s, j :: s in roles && 0 <= j < |s.packages| && s.packages[j].0 == r.packages[i].0 ==>
                      s.packages[j].1 == r.packages[i].1) ==>
                  g.value.resources[t] == r.packages[i].1)
  {
    var t := Package(r.packages[i].0);
    ResourcesExactly(h, roles, t);
    assert IsPackage(r, t, r.packages[i].1);
    assert AsksFor(r, t, r.packages[i].1);
    hide IncludeAll, Banners, Valid, OneClassPerName, Evaluated;
  }

  /** dfsslave installs the datanode at the configured version. */
  lemma DatanodeInstalled()
    ensures var g := IncludeAll(Host(map[], {}), [DFSSLAVE]);
            && g.Some? && Package("hadoop-hdfs-datanode") in g.value.resources
            && g.value.resources[Package("hadoop-hdfs-datanode")]
               == map["ensure" := "2.6.0+cdh5.14.0+2715-1.cdh5.14.0.p0.47~jessie-cdh5.14.0"]
  {
    var start, roles := Host(map[], {}), [DFSSLAVE];
    HadoopFilesPlain();
    PlainRole(DFSSLAVE);
    assert Banners(start) && OneClassPerName(roles) && Evaluated(start, roles) && Valid(roles) by {
      hide Guarded, RoleDeclares, AllValid, HADOOP_FILES;
    }
    hide HADOOP_FILES, IncludeAll, Banners, Valid, OneClassPerName, Evaluated;
    PackageDeclared(start, roles, DFSSLAVE, 0);
  }

  /** A banner line that does not come from the class itself aborts the compilation. */
  lemma ForeignBannerAborts(h: Host, r: Role)
    requires r.name !in h.classes && MotdRegister(r.name) in h.resources
    ensures Include(h, r) == None
  {}

  /** A configuration file whose hash repeats an explicit attribute aborts the compilation, if nothing else
      has declared the file. */
  lemma RepeatedAttributeAborts(h: Host, r: Role, g: nat, i: nat)
    requires r.name !in h.classes && g < |r.configurationFiles| && i < |r.configurationFiles[g].1|
    requires var f := r.configurationFiles[g].1[i];
             && File(f.0) !in h.resources && !Below(r.dataMounts, r.dataMountsSubdirs, File(f.0))
             && forall k, j :: 0 <= k < |r.configurationFiles| && 0 <= j < |r.configurationFiles[k].1|
                               && r.configurationFiles[k].1[j].0 == f.0 ==>
                  "ensure" in r.configurationFiles[k].1[j].1 || "content" in r.configurationFiles[k].1[j].1
    ensures Include(h, r) == None
  {
    var t := File(r.configurationFiles[g].1[i].0);
    var start := h.resources[MotdRegister(r.name) := map[]];
    ConfigurationDeclared(r.configurationFiles, g, i);
    var configuration := ConfigurationDeclarations(r.configurationFiles);
    forall d | d in Guarded(r) && d.title == t ensures !d.valid {
      GuardedIsConfiguration(r, d);
      ConfigurationFrom(r.configurationFiles, d);
    }
    var k :| 0 <= k < |configuration| && configuration[k].title == t;
    assert Guarded(r)[|PackageDeclarations(r.packages)| + k] == configuration[k];
    FirstIsOneOf(Guarded(r), t);
    GrowIsFirstWins(start, Guarded(r));
    hide Guarded;
  }

  lemma GuardedIsConfiguration(r: Role, d: Declaration)
    requires d in Guarded(r) && d.title.File? && !Below(r.dataMounts, r.dataMountsSubdirs, d.title)
    ensures d in ConfigurationDeclarations(r.configurationFiles)
  {
    var m := MountDeclarations(r.dataMounts, r.dataMountsSubdirs, r.dataMountsAttr);
    MountsExactly(r.dataMounts, r.dataMountsSubdirs, r.dataMountsAttr, d.title, d.attributes);
    assert d !in m;
    hide Below;
  }

  lemma {:induction false} ConfigurationFrom(groups: seq<(string, seq<(string, Attributes)>)>, d: Declaration)
    requires d in ConfigurationDeclarations(groups)
    ensures exists g, i :: 0 <= g < |groups| && 0 <= i < |groups[g].1|
                           && d == FileDeclaration(groups[g].1[i].0, groups[g].1[i].1)
  {
    var n := |groups| - 1;
    var own := FileDeclarations(groups[n].1);
    if d in ConfigurationDeclarations(groups[..n]) {
      ConfigurationFrom(groups[..n], d);
      var g, i :| 0 <= g < n && 0 <= i < |groups[..n][g].1|
                  && d == FileDeclaration(groups[..n][g].1[i].0, groups[..n][g].1[i].1);
      assert groups[g] == groups[..n][g];
    } else {
      var i :| 0 <= i < |own| && own[i] == d;
      assert d == FileDeclaration(groups[n].1[i].0, groups[n].1[i].1);
    }
  }
}
