/** azkaban_cli_td: resolution of the `--project` argument and the retry loops around uploads. */
module AzkabanCli {
  import opened Text

  // ---------- Project resolution ----------

  datatype Failure = NotFound | ModuleRequired | NoneRegistered | SeveralRegistered

  datatype Resolution<T> = Resolved(name: string, project: Option<T>) | Failed(reason: Failure)

  /** Projects registered by a module; `None` stands for an import error. */
  type Loader<T> = string -> Option<map<string, T>>

  /** The text before and after the rightmost colon. */
  function RSplit(text: string): (string, string)
    requires ':' in text
  {
    var i := LastIndex(text, ':');
    (text[..i], text[i + 1..])
  }

  /** The rightmost colon separates exactly when the name holds none: paths may contain colons. */
  lemma RSplitRoundTrip(path: string, name: string)
    ensures RSplit(path + ":" + name) == (path, name) <==> ':' !in name
  {
    var text := path + ":" + name;
    assert text[|path|] == ':';
    if ':' !in name {
      assert forall j :: |path| < j < |text| ==> text[j] == name[j - |path| - 1];
      assert text[..|path|] == path && text[|path| + 1..] == name;
    }
  }

  /** No or an empty option stands for the default module. */
  function OrElse(o: Option<string>, default: string): string
  {
    if o.Some? && o.value != "" then o.value else default
  }

  function Loaded<T>(o: Option<map<string, T>>): map<string, T>
  {
    if o.Some? then o.value else map[]
  }

  /** The name asked for, if any, and the projects it is looked up in. */
  function Wanted<T>(option: Option<string>, default: string, load: Loader<T>): (Option<string>, map<string, T>)
  {
    var text := OrElse(option, default);
    if ':' in text then
      var (path, name) := RSplit(text);
      (if name == "" then None else Some(name), Loaded(load(OrElse(Some(path), default))))
    else if load(text).Some? then (None, load(text).value)
    else (if text == "" then None else Some(text), Loaded(load(default)))
  }

  /** When a resolution is right: a name asked for is found in the loaded projects, or stands alone
      when none could be loaded and none is required; without a name there is exactly one project. */
  ghost predicate Right<T>(wanted: Option<string>, projects: map<string, T>, required: bool, r: Resolution<T>)
  {
    match wanted
    case Some(name) =>
      if name in projects then r == Resolved(name, Some(projects[name]))
      else if projects != map[] then r == Failed(NotFound)
      else r == if required then Failed(ModuleRequired) else Resolved(name, None)
    case None =>
      if projects == map[] then r == Failed(NoneRegistered)
      else if |projects| > 1 then r == Failed(SeveralRegistered)
      else exists n :: n in projects && projects == map[n := projects[n]] && r == Resolved(n, Some(projects[n]))
  }

  /** `_parse_project`. */
  method ParseProject<T>(option: Option<string>, default: string, requireProject: bool, load: Loader<T>)
    returns (r: Resolution<T>)
    ensures var (wanted, projects) := Wanted(option, default, load);
            Right(wanted, projects, requireProject, r)
  {
    var projects: map<string, T> := map[];
    var name: Option<string>;
    var project := OrElse(option, default);
    if ':' in project {
      var (path, last) := RSplit(project);
      name := Some(last);
      var loaded := load(if path != "" then path else default);
      if loaded.Some? { projects := loaded.value; }
    } else {
      var loaded := load(project);
      if loaded.Some? {
        projects := loaded.value;
        name := None;
      } else {
        name := Some(project);
        var fallback := load(default);
        if fallback.Some? { projects := fallback.value; }
      }
    }
    if name.Some? && name.value != "" {
      if name.value in projects { return Resolved(name.value, Some(projects[name.value])); }
      if projects != map[] { return Failed(NotFound); }
      if requireProject { return Failed(ModuleRequired); }
      return Resolved(name.value, None);
    }
    if projects == map[] { return Failed(NoneRegistered); }
    if |projects| > 1 { return Failed(SeveralRegistered); }
    r := PopItem(projects);
  }

  /** `popitem` on a dictionary of one entry. */
  method PopItem<T>(projects: map<string, T>) returns (r: Resolution<T>)
    requires projects != map[] && |projects| <= 1
    ensures exists n :: n in projects && projects == map[n := projects[n]] && r == Resolved(n, Some(projects[n]))
  {
    NotEmpty(projects);
    var n :| n in projects;
    SingleKey(projects.Keys, n);
    assert projects == map[n := projects[n]];
    return Resolved(n, Some(projects[n]));
  }

  lemma NotEmpty<T>(m: map<string, T>)
    requires m != map[]
    ensures exists n :: n in m
  {}

  lemma SingleKey(s: set<string>, x: string)
    requires x in s && |s| <= 1
    ensures s == {x}
  {
    assert |s - {x}| == |s| - 1;
  }

  /** Soundness over every loader and option: a returned project is the entry loaded under the
      returned name, a required project is there, and a name is never empty unless a module
      registers its only project under the empty name. */
  lemma ResolutionSound<T>(option: Option<string>, default: string, requireProject: bool,
                                              load: Loader<T>, r: Resolution<T>)
    requires var (wanted, projects) := Wanted(option, default, load);
             Right(wanted, projects, requireProject, r)
    ensures var (wanted, projects) := Wanted(option, default, load);
            && (r.Resolved? && r.project.Some? ==> r.name in projects && r.project.value == projects[r.name])
            && (r.Resolved? && requireProject ==> r.project.Some?)
            && (r.Resolved? && r.project.None? ==> wanted == Some(r.name) && projects == map[])
            && (r.Resolved? ==> r.name != "" || "" in projects)
            && (wanted.Some? && wanted.value !in projects && projects != map[] ==> r == Failed(NotFound))
            && (wanted.Some? && r.Resolved? ==> r.name == wanted.value)
  {}

  /** The rules of the documentation, by the shape of the option. `path:name` loads `path`, or the
      default module for an empty path, whatever colons the path contains. */
  lemma OptionRules<T>(path: string, name: string, default: string, load: Loader<T>)
    requires ':' !in name && name != ""
    ensures Wanted(Some(path + ":" + name), default, load)
            == (Some(name), Loaded(load(if path == "" then default else path)))
    ensures load(name).Some? ==> Wanted(Some(name), default, load) == (None, load(name).value)
    ensures load(name).None? ==> Wanted(Some(name), default, load) == (Some(name), Loaded(load(default)))
  {
    RSplitRoundTrip(path, name);
    assert (path + ":" + name)[|path|] == ':';
  }

  /** Without an option, or with an empty one, the default module is read as the option; an option that
      ends in a colon names a path and no project. */
  lemma OtherOptions<T>(path: string, default: string, load: Loader<T>)
    ensures Wanted(None, default, load) == Wanted(Some(default), default, load) == Wanted(Some(""), default, load)
    ensures ':' !in default ==>
              Wanted(None, default, load)
              == if load(default).Some? then (None, load(default).value)
                 else (if default == "" then None else Some(default), map[])
    ensures Wanted(Some(path + ":"), default, load) == (None, Loaded(load(if path == "" then default else path)))
  {
    RSplitRoundTrip(path, "");
    assert path + ":" + "" == path + ":" && (path + ":")[|path|] == ':';
  }

  /** When exactly which outcome is right. */
  lemma OutcomesExactly<T>(wanted: Option<string>, projects: map<string, T>, required: bool, r: Resolution<T>)
    requires Right(wanted, projects, required, r)
    ensures r == Failed(NoneRegistered) <==> wanted == None && |projects| == 0
    ensures r == Failed(SeveralRegistered) <==> wanted == None && |projects| >= 2
    ensures r == Failed(NotFound) <==> wanted.Some? && |projects| >= 1 && wanted.value !in projects
    ensures r == Failed(ModuleRequired) <==> wanted.Some? && |projects| == 0 && required
    ensures r.Resolved? ==> r == Resolved(r.name, if r.name in projects then Some(projects[r.name]) else None)
    ensures r.Resolved? && wanted.Some? ==> r.name == wanted.value
    ensures r.Resolved? && wanted == None ==> projects.Keys == {r.name}
  {
    if wanted == None && r.Resolved? {
      var n :| n in projects && projects == map[n := projects[n]] && r == Resolved(n, Some(projects[n]));
      assert projects.Keys == map[n := projects[n]].Keys == {n};
    }
    if wanted.Some? && wanted.value in projects { assert |projects.Keys| >= |{wanted.value}|; }
  }

  // ---------- Uploads ----------

  /** A server's projects, the uploads stored for each, and the requests it has answered. */
  datatype ServerState = ServerState(projects: set<string>, versions: map<string, nat>,
                                     uploads: nat, creations: nat)
  {
    function Requests(): nat { uploads + creations }

    function Versions(name: string): nat { if name in versions then versions[name] else 0 }

    function Stored(name: string): ServerState
    {
      this.(versions := versions[name := Versions(name) + 1])
    }
  }

  /** What the environment makes of each request: `faulty(i)` says that request `i` fails for a
      reason of its own, `message(i)` is the text of an error answer to it. */
  datatype Environment = Environment(faulty: nat -> bool, message: nat -> string)

  class Server {
    var state: ServerState
    const env: Environment

    constructor (state: ServerState, env: Environment)
      ensures this.state == state && this.env == env
    {
      this.state, this.env := state, env;
    }

    /** An upload to a missing project is rejected; it never creates one. */
    method Upload(name: string) returns (error: Option<string>)
      modifies this
      ensures var n, s := old(state).Requests(), old(state).(uploads := old(state).uploads + 1);
              && error == (if name in s.projects && !env.faulty(n) then None else Some(env.message(n)))
              && state == if error.None? then s.Stored(name) else s
    {
      var n := state.Requests();
      state := state.(uploads := state.uploads + 1);
      if name !in state.projects || env.faulty(n) { return Some(env.message(n)); }
      state := state.Stored(name);
      return None;
    }

    /** Creating an existing project is rejected. */
    method Create(name: string) returns (ok: bool)
      modifies this
      ensures var n, s := old(state).Requests(), old(state).(creations := old(state).creations + 1);
              && ok == (name !in s.projects && !env.faulty(n))
              && state == if ok then s.(projects := s.projects + {name}) else s
    {
      var n := state.Requests();
      state := state.(creations := state.creations + 1);
      if name in state.projects || env.faulty(n) { return false; }
      state := state.(projects := state.projects + {name});
      return true;
    }
  }

  const MISSING_SUFFIX := "doesn't exist."

  predicate EndsWith(s: string, suffix: string)
  {
    |s| >= |suffix| && s[|s| - |suffix|..] == suffix
  }

  /** `upload` takes every error as a reason to create the project if it may, `build` only one that
      ends like the missing-project message. */
  datatype Command = Upload(name: string, create: bool) | Build(name: string, create: bool)
  {
    predicate Creates(text: string)
    {
      create && (Build? ==> EndsWith(text, MISSING_SUFFIX))
    }
  }

  /** The courses an upload command can take: done at once; refused and given up; refused, then a
      creation that fails; or a creation and one last upload, which is either stored, given up, or
      followed by a creation that must be rejected. */
  function Do(s: ServerState, c: Command, env: Environment): (ServerState, bool)
  {
    var n, name := s.Requests(), c.name;
    var s1 := s.(uploads := s.uploads + 1);
    if name in s.projects && !env.faulty(n) then (s1.Stored(name), true)
    else if !c.Creates(env.message(n)) then (s1, false)
    else
      var s2 := s1.(creations := s1.creations + 1);
      if name in s.projects || env.faulty(n + 1) then (s2, false)
      else
        var s3 := s2.(projects := s2.projects + {name}, uploads := s2.uploads + 1);
        if !env.faulty(n + 2) then (s3.Stored(name), true)
        else if c.Creates(env.message(n + 2)) then (s3.(creations := s3.creations + 1), false)
        else (s3, false)
  }

  /** `upload_project`. */
  method UploadProject(server: Server, name: string, create: bool) returns (ok: bool)
    modifies server
    ensures (server.state, ok) == Do(old(server.state), Upload(name, create), server.env)
  {
    var done := false;
    while !done
      invariant done ==> (server.state, true) == Do(old(server.state), Upload(name, create), server.env)
      invariant !done ==> server.state == old(server.state)
                          || Retrying(old(server.state), server.state, Upload(name, create), server.env)
      decreases !done, name !in server.state.projects
    {
      var error := server.Upload(name);
      if error.Some? {
        if create {
          var created := server.Create(name);
          if !created { return false; }
        } else {
          return false;
        }
      } else {
        done := true;
      }
    }
    return true;
  }

  /** The loop of `build_project`. */
  method BuildUpload(server: Server, name: string, create: bool) returns (ok: bool)
    modifies server
    ensures (server.state, ok) == Do(old(server.state), Build(name, create), server.env)
  {
    var done := false;
    while !done
      invariant done ==> (server.state, true) == Do(old(server.state), Build(name, create), server.env)
      invariant !done ==> server.state == old(server.state)
                          || Retrying(old(server.state), server.state, Build(name, create), server.env)
      decreases !done, name !in server.state.projects
    {
      var error := server.Upload(name);
      if error.Some? {
        if create && EndsWith(error.value, MISSING_SUFFIX) {
          var created := server.Create(name);
          if !created { return false; }
        } else {
          return false;
        }
      } else {
        done := true;
      }
    }
    return true;
  }

  /** Between the two uploads of a command: the project was missing and has just been created. */
  ghost predicate Retrying(before: ServerState, now: ServerState, c: Command, env: Environment)
  {
    && c.name !in before.projects && c.Creates(env.message(before.Requests()))
    && !env.faulty(before.Requests() + 1)
    && now == before.(projects := before.projects + {c.name}, uploads := before.uploads + 1,
                      creations := before.creations + 1)
  }

  // ---------- Sessions ----------

  /** Any commands, one after the other, whoever issues them. */
  function Session(s: ServerState, commands: seq<Command>, env: Environment): ServerState
  {
    if commands == [] then s
    else
      var n := |commands| - 1;
      Do(Session(s, commands[..n], env), commands[n], env).0
  }

  /** How many commands for a project reported success. */
  function Successes(s: ServerState, commands: seq<Command>, env: Environment, name: string): nat
  {
    if commands == [] then 0
    else
      var n := |commands| - 1;
      Successes(s, commands[..n], env, name) +
      if commands[n].name == name && Do(Session(s, commands[..n], env), commands[n], env).1 then 1 else 0
  }

  function Flagged(commands: seq<Command>): nat
  {
    if commands == [] then 0
    else Flagged(commands[..|commands| - 1]) + if commands[|commands| - 1].create then 1 else 0
  }

  /** Whatever the server answers and whatever commands were issued: a project appears only through
      a command for it that has the create flag; each reported success stored exactly one upload and
      nothing else did; stored uploads belong to existing projects; no command sends more than two
      uploads, nor more than two creation requests, and none of those without the flag. */
  lemma {:induction false} SessionSafe(s: ServerState, commands: seq<Command>, env: Environment)
    ensures var e := Session(s, commands, env);
            && s.projects <= e.projects
            && (forall p :: p in e.projects && p !in s.projects ==>
                  exists i :: 0 <= i < |commands| && commands[i].name == p && commands[i].create)
            && (forall p :: e.Versions(p) == s.Versions(p) + Successes(s, commands, env, p))
            && (s.versions.Keys <= s.projects ==> e.versions.Keys <= e.projects)
            && e.uploads <= s.uploads + 2 * |commands| && e.creations <= s.creations + 2 * Flagged(commands)
  {
    if commands != [] {
      var n := |commands| - 1;
      SessionSafe(s, commands[..n], env);
      var mid, c, e := Session(s, commands[..n], env), commands[n], Session(s, commands, env);
      forall p | p in e.projects && p !in s.projects
        ensures exists i :: 0 <= i < |commands| && commands[i].name == p && commands[i].create
      {
        if p in mid.projects {
          var i :| 0 <= i < n && commands[..n][i].name == p && commands[..n][i].create;
          assert commands[i].name == p && commands[i].create;
        } else {
          assert c.name == p && c.create;
        }
      }
    }
  }

  /** When one command succeeds: the project was there and the first upload went through, or it was
      missing, the error allowed its creation, and both the creation and the second upload went
      through. Success leaves the project in place. */
  lemma SuccessExactlyWhen(s: ServerState, c: Command, env: Environment)
    ensures var n := s.Requests();
            && (Do(s, c, env).1 <==>
                  if c.name in s.projects then !env.faulty(n)
                  else c.Creates(env.message(n)) && !env.faulty(n + 1) && !env.faulty(n + 2))
            && (Do(s, c, env).1 ==> c.name in Do(s, c, env).0.projects)
  {}

  /** A command asks for the project's creation exactly if it may and its first upload fails, for `build`
      only with the missing-project message; and it uploads again exactly if that creation succeeds. */
  lemma RequestsExactly(s: ServerState, c: Command, env: Environment)
    ensures var n, after := s.Requests(), Do(s, c, env).0;
            var failed := c.name !in s.projects || env.faulty(n);
            && (after.creations > s.creations <==>
                  && c.create && failed
                  && (c.Build? ==> exists about :: env.message(n) == about + "doesn't exist."))
            && (after.uploads > s.uploads + 1 <==>
                  after.creations > s.creations && c.name !in s.projects && !env.faulty(n + 1))
  {
    var text := env.message(s.Requests());
    if EndsWith(text, MISSING_SUFFIX) {
      assert text == text[..|text| - |MISSING_SUFFIX|] + "doesn't exist.";
    }
  }
}
