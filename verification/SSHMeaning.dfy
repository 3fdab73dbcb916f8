/** SSH profiles on the fields: what the checks accept, what each command does, and what a session is given. */
module SSHMeaning {
  import opened Wrappers
  import opened Text
  import opened SSHProfiles
  import opened SSHProfileRules
  import opened SSHRouting

  // ---- names and hosts ----------------------------------------------------------------------------------------

  predicate LetterOrDigit(c: char) {
    c in "abcdefghijklmnopqrstuvwxyz" || c in "ABCDEFGHIJKLMNOPQRSTUVWXYZ" || c in "0123456789"
  }

  lemma SmallLetter(c: char)
    ensures 'a' <= c <= 'z' <==> c in "abcdefghijklmnopqrstuvwxyz"
  {
    assert 'a' <= c <= 'z' ==> "abcdefghijklmnopqrstuvwxyz"[c as int - 97] == c;
  }

  lemma BigLetter(c: char)
    ensures 'A' <= c <= 'Z' <==> c in "ABCDEFGHIJKLMNOPQRSTUVWXYZ"
  {
    assert 'A' <= c <= 'Z' ==> "ABCDEFGHIJKLMNOPQRSTUVWXYZ"[c as int - 65] == c;
  }

  lemma AlnumIff(c: char)
    ensures IsAlnum(c) <==> LetterOrDigit(c)
  {
    SmallLetter(c);
    BigLetter(c);
    assert '0' <= c <= '9' ==> "0123456789"[c as int - 48] == c;
  }

  /** A name is letters, digits, dots, underscores and dashes, and starts with a letter or digit. */
  lemma ValidNameIff(name: string)
    ensures ValidName(name) <==>
            name != "" && LetterOrDigit(name[0]) && forall i :: 0 <= i < |name| ==> LetterOrDigit(name[i]) || name[i] in "._-"
  {
    forall i | 0 <= i < |name|
      ensures IsAlnum(name[i]) <==> LetterOrDigit(name[i])
    {
      AlnumIff(name[i]);
    }
    hide IsAlnum;
    hide LetterOrDigit;
  }

  /** Host sets overlap when they share a host, or a host with a wildcard of either matches one of the other. */
  lemma OverlapIff(env: Env, a: set<string>, b: set<string>)
    ensures Overlap(env, a, b) <==>
            exists x, y :: x in a && y in b
              && (x == y || ((exists i :: 0 <= i < |x| && x[i] in "*?[") && env.matches(x, y))
                         || ((exists i :: 0 <= i < |y| && y[i] in "*?[") && env.matches(y, x)))
  {
    WildIff();
    hide Wild;
    if Overlap(env, a, b) {
      if h :| h in a && (h in b || WildcardOverlap(env, h, b)) {
        if h in b {
          assert h in a && h in b && h == h;
        } else {
          var g :| g in b && env.matches(h, g);
          assert h in a && g in b;
        }
      } else {
        var h :| h in b && WildcardOverlap(env, h, a);
        var g :| g in a && env.matches(h, g);
        assert g in a && h in b;
      }
    }
  }

  lemma WildIff()
    ensures forall p: string :: Wild(p) <==> exists i :: 0 <= i < |p| && p[i] in "*?["
  {
    forall p: string
      ensures Wild(p) <==> exists i :: 0 <= i < |p| && p[i] in "*?["
    {
      if i :| 0 <= i < |p| && p[i] in "*?[" {
        assert p[i] in p;
      }
    }
  }

  /** A list of hosts stands for its hosts, folded and trimmed, without the blank ones; a malformed one spoils it. */
  lemma NormalizedIff(env: Env, hosts: seq<string>)
    ensures Normalized(env, hosts).Some? <==>
            forall h :: h in hosts ==> env.lower(TrimSpace(h)) == "" || env.hostPattern(env.lower(TrimSpace(h)))
    ensures Normalized(env, hosts).Some? ==>
              forall c :: c in Normalized(env, hosts).value <==> c != "" && exists h :: h in hosts && c == env.lower(TrimSpace(h))
  {
    hide TrimSpace;
  }

  /** A key's hosts are its own, or else the default hosts of its profile. */
  lemma HostsComeFrom(env: Env, key: Key, profiles: map<string, Profile>)
    ensures key.hosts != [] ==> HostsOf(key, profiles) == key.hosts && Effective(env, key, profiles) == Normalized(env, key.hosts)
    ensures key.hosts == [] && Blank(key.profile) ==> HostsOf(key, profiles) == [] && Effective(env, key, profiles) == Some({})
    ensures key.hosts == [] && !Blank(key.profile) ==>
              var name := TrimSpace(key.profile);
              && (name in profiles ==> HostsOf(key, profiles) == profiles[name].defaultHosts
                                       && Effective(env, key, profiles) == Normalized(env, profiles[name].defaultHosts))
              && (name !in profiles ==> Effective(env, key, profiles) == None)
  {
    hide TrimSpace;
    hide Normalized;
  }

  // ---- what loads ---------------------------------------------------------------------------------------------

  /** A well-formed key: a name, exactly one source of its identity, well-formed hosts, and at least one of them unless
      a profile may give it some. */
  lemma KeyFormIff(env: Env, key: Key)
    ensures KeyForm(env, key) <==>
            && ValidName(TrimSpace(key.name))
            && (if Blank(key.profile) then 0 else 1) + (if Blank(key.inventory) then 0 else 1)
               + (if Blank(key.privateKey) then 0 else 1) == 1
            && Normalized(env, key.hosts).Some?
            && (Blank(key.profile) ==> exists h :: h in Normalized(env, key.hosts).value)
  {
    hide TrimSpace;
    hide Normalized;
    hide ValidName;
  }

  /** What loads: profiles with a name, a private key and well-formed default hosts; and in each project with keys no
      other identity, well-formed keys whose profiles are defined, with different names and hosts apart, their own
      and those they inherit. */
  lemma LoadableIff(env: Env, cfg: Config)
    ensures Loadable(env, cfg) <==>
            && (forall n :: n in cfg.profiles ==>
                  && ValidName(TrimSpace(n)) && !Blank(cfg.profiles[n].privateKey)
                  && Normalized(env, cfg.profiles[n].defaultHosts).Some?)
            && (forall p :: p in cfg.projects && cfg.projects[p].ssh.Some? ==> Loads(env, cfg.projects[p].ssh.value, cfg.profiles))
  {
    forall p | p in cfg.projects && cfg.projects[p].ssh.Some?
      ensures SSHOk(env, cfg.projects[p].ssh.value, cfg.profiles) <==> Loads(env, cfg.projects[p].ssh.value, cfg.profiles)
    {
      LoadsIff(env, cfg.projects[p].ssh.value, cfg.profiles);
    }
    hide SSHOk;
    hide Loads;
    hide TrimSpace;
    hide ValidName;
    hide Normalized;
  }

  predicate Loads(env: Env, c: SSH, profiles: map<string, Profile>) {
    && (c.keys == [] ==> Blank(c.privateKey) && Blank(c.inventory) && Blank(c.knownHosts))
    && (c.keys != [] ==> Blank(c.privateKey) && Blank(c.inventory))
    && (forall k :: k in c.keys ==>
          && KeyForm(env, k) && Effective(env, k, profiles).Some?
          && (!Blank(k.profile) ==> TrimSpace(k.profile) in profiles))
    && (forall i, j :: 0 <= i < j < |c.keys| ==>
          && TrimSpace(c.keys[i].name) != TrimSpace(c.keys[j].name)
          && !Overlap(env, Normalized(env, c.keys[i].hosts).value, Normalized(env, c.keys[j].hosts).value)
          && !Overlap(env, Effective(env, c.keys[i], profiles).value, Effective(env, c.keys[j], profiles).value))
  }

  lemma LoadsIff(env: Env, c: SSH, profiles: map<string, Profile>)
    ensures SSHOk(env, c, profiles) <==> Loads(env, c, profiles)
  {
    hide TrimSpace;
    hide Normalized;
    hide Overlap;
    hide ValidName;
    hide OneSource;
    hide Effective;
  }

  // ---- what the commands do -----------------------------------------------------------------------------------

  /** The key `ssh add` is asked for, from exactly one source that is there. */
  ghost predicate Asked(env: Env, cfg: Config, cmd: Command, key: Key)
    requires cmd.AddKey?
  {
    && !Blank(cmd.name) && key.name == TrimSpace(cmd.name) && key.hosts == cmd.hosts
    && (|| (!Blank(cmd.profile) && Blank(cmd.inventory) && Blank(cmd.keyArg)
            && TrimSpace(cmd.profile) in cfg.profiles
            && key.profile == TrimSpace(cmd.profile) && key.inventory == "" && key.privateKey == "" && key.knownHosts == "")
        || (Blank(cmd.profile) && !Blank(cmd.inventory) && Blank(cmd.keyArg)
            && env.provisioned(TrimSpace(cmd.inventory)).Some?
            && key.profile == "" && key.inventory == TrimSpace(cmd.inventory) && key.privateKey == "" && key.knownHosts == "")
        || (Blank(cmd.profile) && Blank(cmd.inventory) && !Blank(cmd.keyArg)
            && match env.keyArgument(TrimSpace(cmd.keyArg))
               case None => false
               case Some(id) => key.profile == "" && key.inventory == "" && key.privateKey == id.privateKey && key.knownHosts == id.knownHosts))
  }

  lemma NewKeyIff(env: Env, cfg: Config, cmd: Command, key: Key)
    requires cmd.AddKey?
    ensures NewKey(env, cfg, cmd) == Some(key) <==> Asked(env, cfg, cmd, key)
  {
    hide TrimSpace;
    hide Blank;
  }

  /** Adding a key works exactly if what is asked for exists and the project's keys with it would load. The key then
      stands last, and the project has no other identity. */
  lemma AddKeyIff(env: Env, cfg: Config, cmd: Command, after: Config)
    requires Loadable(env, cfg) && cmd.AddKey?
    ensures Run(env, cfg, cmd) == Some(after) <==>
            exists key :: Asked(env, cfg, cmd, key)
              && var p := ProjectOf(cfg, cmd.project); var ssh := SSH("", "", "", KeysOf(p) + [key]);
                 SSHOk(env, ssh, cfg.profiles)
                 && after == cfg.(projects := cfg.projects[cmd.project := p.(ssh := Some(ssh), gitSSH := None)])
  {
    var keys := KeysOf(ProjectOf(cfg, cmd.project));
    forall key
      ensures NewKey(env, cfg, cmd) == Some(key) <==> Asked(env, cfg, cmd, key)
      ensures SSHOk(env, SSH("", "", "", keys + [key]), cfg.profiles) && key.name == TrimSpace(cmd.name) ==>
                forall k :: k in keys ==> k.name != key.name
    {
      NewKeyIff(env, cfg, cmd, key);
      if SSHOk(env, SSH("", "", "", keys + [key]), cfg.profiles) && key.name == TrimSpace(cmd.name) {
        NameIsNew(env, keys, key, cfg.profiles);
      }
    }
    FlatIsEmpty(keys);
    hide Loadable;
    hide Asked;
    hide NewKey;
    hide FormOk;
    hide RefsOk;
    if Run(env, cfg, cmd) == Some(after) {
      var key := NewKey(env, cfg, cmd).value;
      assert Asked(env, cfg, cmd, key) && !Flat(SSH("", "", "", keys + [key]));
    }
    if key :| Asked(env, cfg, cmd, key) && SSHOk(env, SSH("", "", "", keys + [key]), cfg.profiles) {
      assert NewKey(env, cfg, cmd) == Some(key);
      AskedName(env, cfg, cmd, key);
    }
  }

  lemma AskedName(env: Env, cfg: Config, cmd: Command, key: Key)
    requires cmd.AddKey? && Asked(env, cfg, cmd, key)
    ensures key.name == TrimSpace(cmd.name)
  {
  }

  lemma FlatIsEmpty(keys: seq<Key>)
    ensures forall key :: !Flat(SSH("", "", "", keys + [key]))
  {
  }

  lemma NameIsNew(env: Env, keys: seq<Key>, key: Key, profiles: map<string, Profile>)
    requires SSHOk(env, SSH("", "", "", keys + [key]), profiles)
    ensures forall k :: k in keys ==> k.name != key.name
  {
    var all := keys + [key];
    hide TrimSpace;
    hide Overlap;
    hide Normalized;
    forall k | k in keys
      ensures k.name != key.name
    {
      var i :| 0 <= i < |keys| && keys[i] == k;
      assert all[i] == k && all[|keys|] == key;
      assert PairForm(env, all[i], all[|keys|]);
    }
  }

  /** Keeping the keys that pass keeps each in its place. */
  lemma {:induction false} KeepOf(a: seq<Key>, key: Key, f: Key -> bool)
    ensures Keep([], f) == [] && Keep(a + [key], f) == Keep(a, f) + if f(key) then [key] else []
  {
    assert (a + [key])[..|a|] == a;
  }

  /** Removing a key works exactly if the project has one of that name: what is left always passes the checks. The other
      keys stay; a project without keys has no SSH entry, and one with nothing else to say is forgotten. */
  lemma RemoveKeyIff(env: Env, cfg: Config, project: string, nameArg: string, after: Config)
    requires Loadable(env, cfg)
    ensures Run(env, cfg, RemoveKey(project, nameArg)) == Some(after) <==>
            var name, p := TrimSpace(nameArg), ProjectOf(cfg, project);
            var kept := Keep(KeysOf(p), (k: Key) => k.name != name);
            var p' := p.(ssh := if kept == [] then None else Some(SSH("", "", "", kept)));
            && name != "" && (exists k :: k in KeysOf(p) && k.name == name)
            && after == cfg.(projects := if HasOverrides(p') then cfg.projects[project := p'] else cfg.projects - {project})
  {
    var name, p := TrimSpace(nameArg), ProjectOf(cfg, project);
    KeepSame(KeysOf(p), NotNamed(name), (k: Key) => k.name != name);
    KeptForm(env, cfg, project, name);
    hide Loadable;
    hide FormOk;
    hide RefsOk;
    hide Keep;
    hide HasOverrides;
    hide TrimSpace;
    hide KeysOf;
    hide ProjectOf;
  }

  lemma KeptForm(env: Env, cfg: Config, project: string, name: string)
    requires Loadable(env, cfg)
    ensures var keys := KeysOf(ProjectOf(cfg, project));
            keys != [] ==> FormOk(env, SSH("", "", "", Keep(keys, NotNamed(name))))
  {
    var p := ProjectOf(cfg, project);
    if p.ssh.Some? {
      assert project in cfg.projects && SSHOk(env, cfg.projects[project].ssh.value, cfg.profiles);
      KeptSSHOk(env, p.ssh.value, NotNamed(name), cfg.profiles);
      PlainSSHOk(env, Keep(KeysOf(p), NotNamed(name)), cfg.profiles);
    }
    hide Loadable;
    hide FormOk;
    hide RefsOk;
    hide Keep;
  }

  lemma {:induction false} KeepSame(keys: seq<Key>, f: Key -> bool, g: Key -> bool)
    requires forall k :: f(k) == g(k)
    ensures Keep(keys, f) == Keep(keys, g)
  {
    if keys != [] {
      KeepSame(keys[..|keys| - 1], f, g);
    }
  }

  /** What keeps a project in the file: docker, directories, SSH keys or the older Git SSH entry. */
  lemma HasOverridesIff(p: Project)
    ensures HasOverrides(p) <==> p != Project(false, [], [], None, None)
  {
  }

  /** `ssh unset` takes both kinds of SSH entry away, after a confirmation when one is asked for. */
  lemma UnsetIff(env: Env, cfg: Config, project: string, selection: string, after: Config)
    requires Loadable(env, cfg)
    ensures Run(env, cfg, Unset(project, selection)) == Some(after) <==>
            var p := ProjectOf(cfg, project);
            var p' := p.(ssh := None, gitSSH := None);
            && (Blank(selection) || p' == p || env.confirms(p, TrimSpace(selection)))
            && after == (if p' == p then cfg
                         else cfg.(projects := if HasOverrides(p') then cfg.projects[project := p'] else cfg.projects - {project}))
  {
    hide Loadable;
    hide TrimSpace;
    hide HasOverrides;
  }

  /** A profile can be added exactly under a new, well-formed name, with a private key that is there, known hosts that
      are there if any are given, and well-formed default hosts. */
  lemma AddProfileIff(env: Env, cfg: Config, cmd: Command, after: Config)
    requires Loadable(env, cfg) && cmd.AddProfile?
    ensures Run(env, cfg, cmd) == Some(after) <==>
            var name := TrimSpace(cmd.name);
            && ValidName(name) && name !in cfg.profiles
            && !Blank(cmd.privateKey) && env.canonical(cmd.privateKey).Some? && !Blank(env.canonical(cmd.privateKey).value)
            && (!Blank(cmd.knownHosts) ==> env.canonical(cmd.knownHosts).Some?)
            && Normalized(env, cmd.defaultHosts).Some?
            && after == cfg.(profiles := cfg.profiles[name := Profile(
                 env.canonical(cmd.privateKey).value,
                 if Blank(cmd.knownHosts) then "" else env.canonical(cmd.knownHosts).value,
                 cmd.defaultHosts, TrimSpace(cmd.description))])
  {
    assert ProfilesOk(env, cfg.profiles);
    NewProfileIff(env, cmd);
    AddProfileRun(env, cfg, cmd);
    TrimTwice(cmd.name);
    hide *;
    var name := TrimSpace(cmd.name);
    if name !in cfg.profiles && NewProfile(env, cmd).Some? {
      OneMoreProfile(env, cfg.profiles, name, NewProfile(env, cmd).value);
    }
  }

  lemma AddProfileRun(env: Env, cfg: Config, cmd: Command)
    requires Loadable(env, cfg) && cmd.AddProfile?
    ensures var name, profile := TrimSpace(cmd.name), NewProfile(env, cmd);
            Run(env, cfg, cmd) ==
            if ValidName(name) && name !in cfg.profiles && profile.Some? && ProfilesOk(env, cfg.profiles[name := profile.value]) then
              Some(cfg.(profiles := cfg.profiles[name := profile.value]))
            else None
  {
    hide Loadable;
    hide TrimSpace;
    hide ValidName;
    hide ProfilesOk;
    hide NewProfile;
  }

  lemma NewProfileIff(env: Env, cmd: Command)
    requires cmd.AddProfile?
    ensures NewProfile(env, cmd).Some? <==>
            && !Blank(cmd.privateKey) && env.canonical(cmd.privateKey).Some?
            && (!Blank(cmd.knownHosts) ==> env.canonical(cmd.knownHosts).Some?)
    ensures NewProfile(env, cmd).Some? ==> NewProfile(env, cmd).value == Profile(
              env.canonical(cmd.privateKey).value,
              if Blank(cmd.knownHosts) then "" else env.canonical(cmd.knownHosts).value,
              cmd.defaultHosts, TrimSpace(cmd.description))
  {
    hide TrimSpace;
  }

  lemma OneMoreProfile(env: Env, profiles: map<string, Profile>, name: string, profile: Profile)
    requires ProfilesOk(env, profiles) && name !in profiles
    ensures ProfilesOk(env, profiles[name := profile]) <==>
            ValidName(TrimSpace(name)) && !Blank(profile.privateKey) && Normalized(env, profile.defaultHosts).Some?
  {
    hide TrimSpace;
    hide ValidName;
    hide Normalized;
    assert name in profiles[name := profile];
  }

  /** The project without the keys that name the profile. */
  ghost function WithoutProfile(p: Project, name: string): Project {
    var kept := Keep(KeysOf(p), (k: Key) => TrimSpace(k.profile) != name);
    if kept == KeysOf(p) then p else p.(ssh := if kept == [] then None else Some(SSH("", "", "", kept)))
  }

  lemma RunIs(env: Env, cfg: Config, nameArg: string, force: bool, newArg: string)
    requires Loadable(env, cfg)
    ensures Run(env, cfg, RemoveProfile(nameArg, force)) == RunRemoveProfile(cfg, nameArg, force)
    ensures Run(env, cfg, RenameProfile(nameArg, newArg)) == RunRenameProfile(cfg, nameArg, newArg)
  {
    hide RunRemoveProfile;
    hide RunRenameProfile;
  }

  lemma RemovesIff(cfg: Config, nameArg: string, force: bool)
    ensures RunRemoveProfile(cfg, nameArg, force).Some? <==>
            TrimSpace(nameArg) in cfg.profiles && (force || Referrers(cfg, TrimSpace(nameArg)) == {})
    ensures RunRemoveProfile(cfg, nameArg, force).Some? ==>
              RunRemoveProfile(cfg, nameArg, force).value.profiles == cfg.profiles - {TrimSpace(nameArg)}
  {
    hide TrimSpace;
    hide Referrers;
    hide Detach;
    hide HasOverrides;
  }

  /** Without force a profile is removed exactly if no key names it; with force always. */
  lemma RemoveProfileIff(env: Env, cfg: Config, nameArg: string, force: bool)
    requires Loadable(env, cfg)
    ensures var name := TrimSpace(nameArg);
            Run(env, cfg, RemoveProfile(nameArg, force)).Some? <==>
              name in cfg.profiles
              && (force || forall p, k :: p in cfg.projects && k in KeysOf(cfg.projects[p]) ==> TrimSpace(k.profile) != name)
  {
    RunIs(env, cfg, nameArg, force, "");
    RemovesIff(cfg, nameArg, force);
    if TrimSpace(nameArg) in cfg.profiles {
      NamesAreNotEmpty(env, cfg, nameArg);
      ReferredIff(cfg, TrimSpace(nameArg));
    }
    hide *;
  }

  /** Removing a profile takes it away, and with it every key that names it; nothing else changes but that a project with
      nothing left is forgotten. */
  lemma RemoveProfileDoes(env: Env, cfg: Config, nameArg: string, force: bool, p: string)
    requires Loadable(env, cfg) && Run(env, cfg, RemoveProfile(nameArg, force)).Some?
    ensures var name, after := TrimSpace(nameArg), Run(env, cfg, RemoveProfile(nameArg, force)).value;
            after.profiles == cfg.profiles - {name} && ProjectOf(after, p) == WithoutProfile(ProjectOf(cfg, p), name)
  {
    RunIs(env, cfg, nameArg, force, "");
    RemovesIff(cfg, nameArg, force);
    NamesAreNotEmpty(env, cfg, nameArg);
    hide *;
    DetachedAt(cfg, nameArg, force, p);
  }

  lemma ReferredIff(cfg: Config, name: string)
    requires name != ""
    ensures Referrers(cfg, name) == {} <==>
            forall p, k :: p in cfg.projects && k in KeysOf(cfg.projects[p]) ==> TrimSpace(k.profile) != name
  {
    hide TrimSpace;
    if p, k :| p in cfg.projects && k in KeysOf(cfg.projects[p]) && TrimSpace(k.profile) == name {
      assert Refers(cfg.projects[p], name);
      assert p in Referrers(cfg, name);
    }
    if p :| p in Referrers(cfg, name) {
      var k :| k in cfg.projects[p].ssh.value.keys && Points(k, name);
      assert k in KeysOf(cfg.projects[p]);
    }
  }

  lemma DetachedAt(cfg: Config, nameArg: string, force: bool, p: string)
    requires RunRemoveProfile(cfg, nameArg, force).Some? && TrimSpace(nameArg) != ""
    ensures ProjectOf(RunRemoveProfile(cfg, nameArg, force).value, p) == WithoutProfile(ProjectOf(cfg, p), TrimSpace(nameArg))
  {
    WithoutIs(ProjectOf(cfg, p), TrimSpace(nameArg));
    if Refers(ProjectOf(cfg, p), TrimSpace(nameArg)) {
      hide *;
      DetachesReferring(cfg, nameArg, force, p);
    } else {
      hide *;
      UnreferredStays(cfg, nameArg, force, p);
    }
  }

  lemma WithoutIs(p: Project, name: string)
    ensures WithoutProfile(p, name) == if Refers(p, name) then WithKeys(p, Keep(KeysOf(p), NotPointing(name))) else p
  {
    var keys := KeysOf(p);
    KeepSame(keys, NotPointing(name), (k: Key) => TrimSpace(k.profile) != name);
    KeepHolds(keys, NotPointing(name));
    hide TrimSpace;
    hide Keep;
    if Refers(p, name) {
      var k :| k in keys && Points(k, name);
      assert k !in Keep(keys, NotPointing(name));
    } else {
      assert forall k :: k in keys ==> NotPointing(name)(k);
      KeepAll(keys, NotPointing(name));
    }
  }

  lemma DetachesReferring(cfg: Config, nameArg: string, force: bool, p: string)
    requires RunRemoveProfile(cfg, nameArg, force).Some? && TrimSpace(nameArg) != ""
    requires Refers(ProjectOf(cfg, p), TrimSpace(nameArg))
    ensures ProjectOf(RunRemoveProfile(cfg, nameArg, force).value, p)
         == WithKeys(ProjectOf(cfg, p), Keep(KeysOf(ProjectOf(cfg, p)), NotPointing(TrimSpace(nameArg))))
  {
    assert p in cfg.projects && p in Referrers(cfg, TrimSpace(nameArg));
    hide TrimSpace;
    hide Keep;
    hide Refers;
    HasOverridesIff(Detach(cfg.projects[p], TrimSpace(nameArg)));
    hide HasOverrides;
  }

  /** The project's keys that named the old profile name the new one, and all else is the same. */
  predicate Renamed(before: Project, now: Project, oldName: string, newName: string) {
    && now.(ssh := None) == before.(ssh := None)
    && (now.ssh.Some? <==> before.ssh.Some?)
    && (now.ssh.Some? ==>
          && now.ssh.value.(keys := []) == before.ssh.value.(keys := [])
          && |now.ssh.value.keys| == |before.ssh.value.keys|
          && forall i :: 0 <= i < |before.ssh.value.keys| ==>
               var key := before.ssh.value.keys[i];
               now.ssh.value.keys[i] == if TrimSpace(key.profile) == oldName then key.(profile := newName) else key)
  }

  lemma RenamesIff(cfg: Config, oldArg: string, newArg: string)
    ensures var oldName, newName := TrimSpace(oldArg), TrimSpace(newArg);
            RunRenameProfile(cfg, oldArg, newArg).Some? <==>
              oldName != "" && oldName in cfg.profiles && ValidName(newName) && newName !in cfg.profiles
    ensures RunRenameProfile(cfg, oldArg, newArg).Some? ==>
              var oldName, newName, after := TrimSpace(oldArg), TrimSpace(newArg), RunRenameProfile(cfg, oldArg, newArg).value;
              && after.profiles == (cfg.profiles - {oldName})[newName := cfg.profiles[oldName]]
              && after.projects.Keys == cfg.projects.Keys
              && forall p :: p in cfg.projects ==> after.projects[p] == RetargetProject(cfg.projects[p], oldName, newName)
  {
    hide TrimSpace;
    hide ValidName;
    hide RetargetProject;
  }

  /** A profile can be renamed exactly to a new, well-formed name. */
  lemma RenameIff(env: Env, cfg: Config, oldArg: string, newArg: string)
    requires Loadable(env, cfg)
    ensures var oldName, newName := TrimSpace(oldArg), TrimSpace(newArg);
            Run(env, cfg, RenameProfile(oldArg, newArg)).Some? <==>
              oldName in cfg.profiles && ValidName(newName) && newName !in cfg.profiles
  {
    RunIs(env, cfg, oldArg, false, newArg);
    RenamesIff(cfg, oldArg, newArg);
    if TrimSpace(oldArg) in cfg.profiles {
      NamesAreNotEmpty(env, cfg, oldArg);
    }
    hide RunRenameProfile;
    hide Run;
    hide TrimSpace;
    hide Loadable;
  }

  /** A renamed profile keeps what it holds, the keys that named it name the new one, and nothing else changes. */
  lemma RenameDoes(env: Env, cfg: Config, oldArg: string, newArg: string)
    requires Loadable(env, cfg) && Run(env, cfg, RenameProfile(oldArg, newArg)).Some?
    ensures var oldName, newName, after := TrimSpace(oldArg), TrimSpace(newArg), Run(env, cfg, RenameProfile(oldArg, newArg)).value;
            && oldName in cfg.profiles
            && after.profiles == (cfg.profiles - {oldName})[newName := cfg.profiles[oldName]]
            && after.projects.Keys == cfg.projects.Keys
            && forall p :: p in cfg.projects ==> Renamed(cfg.projects[p], after.projects[p], oldName, newName)
  {
    RunIs(env, cfg, oldArg, false, newArg);
    RenamesIff(cfg, oldArg, newArg);
    hide *;
    forall p | p in cfg.projects
      ensures Renamed(cfg.projects[p], RetargetProject(cfg.projects[p], TrimSpace(oldArg), TrimSpace(newArg)),
                      TrimSpace(oldArg), TrimSpace(newArg))
    {
      RetargetMeans(cfg.projects[p], TrimSpace(oldArg), TrimSpace(newArg));
    }
  }

  lemma RetargetMeans(p: Project, oldName: string, newName: string)
    ensures Renamed(p, RetargetProject(p, oldName, newName), oldName, newName)
  {
    hide TrimSpace;
  }

  // ---- what a session is given --------------------------------------------------------------------------------

  lemma {:induction false} FoldOnce(env: Env, hosts: seq<string>)
    ensures Fold(env, hosts).Some? ==>
              forall i, j :: 0 <= i < j < |Fold(env, hosts).value| ==> Fold(env, hosts).value[i] != Fold(env, hosts).value[j]
  {
    hide Clean;
    if hosts != [] {
      FoldOnce(env, hosts[..|hosts| - 1]);
    }
  }

  /** A session allows a list's hosts, folded and trimmed, without blank ones and repeats. It takes no list with a host
      its own pattern refuses, and none without a host. */
  lemma SessionHostsIff(env: Env, hosts: seq<string>)
    ensures SessionHosts(env, hosts).Some? <==>
            && (forall h :: h in hosts ==> env.lower(TrimSpace(h)) == "" || env.sessionHostPattern(env.lower(TrimSpace(h))))
            && (exists h :: h in hosts && env.lower(TrimSpace(h)) != "")
    ensures SessionHosts(env, hosts).Some? ==>
              var allowed := SessionHosts(env, hosts).value;
              && (forall c :: c in allowed <==> c != "" && exists h :: h in hosts && c == env.lower(TrimSpace(h)))
              && (forall i, j :: 0 <= i < j < |allowed| ==> allowed[i] != allowed[j])
  {
    FoldIff(env, hosts);
    FoldOnce(env, hosts);
    if Fold(env, hosts).Some? {
      FoldHolds(env, hosts);
    }
    hide Fold;
    hide TrimSpace;
    if Fold(env, hosts).Some? {
      var folded := Fold(env, hosts).value;
      assert folded != [] <==> exists c :: c in folded by {
        assert folded != [] ==> folded[0] in folded;
      }
      if h :| h in hosts && env.lower(TrimSpace(h)) != "" {
        assert env.lower(TrimSpace(h)) in folded;
      }
    }
  }

  /** They stand in the order of their first places. */
  lemma {:induction false} FoldPrefix(env: Env, a: seq<string>, b: seq<string>)
    requires Fold(env, a + b).Some?
    ensures Fold(env, a).Some? && Fold(env, a).value <= Fold(env, a + b).value
    decreases |b|
  {
    hide TrimSpace;
    if b == [] {
      assert a + b == a;
    } else {
      var n := |b| - 1;
      assert (a + b)[..|a| + n] == a + b[..n];
      FoldPrefix(env, a, b[..n]);
    }
  }

  /** The identity a key stands for: the files its profile or the key itself names, with the known hosts beside the
      private key when none are named, or the provisioned key of that name. */
  lemma IdentityIff(env: Env, key: Key, profiles: map<string, Profile>, id: Identity)
    ensures ResolveIdentity(env, key, profiles) == Some(id) <==>
            if !Blank(key.profile) then
              TrimSpace(key.profile) in profiles
              && OnDisk(env, profiles[TrimSpace(key.profile)].privateKey, profiles[TrimSpace(key.profile)].knownHosts, id)
            else if !Blank(key.privateKey) then OnDisk(env, key.privateKey, key.knownHosts, id)
            else !Blank(key.inventory) && env.provisioned(TrimSpace(key.inventory)) == Some(id)
  {
    hide TrimSpace;
  }

  predicate OnDisk(env: Env, privateKey: string, knownHosts: string, id: Identity) {
    && env.canonical(privateKey) == Some(id.privateKey)
    && env.canonical(if Blank(knownHosts) then env.besideKey(id.privateKey) else knownHosts) == Some(id.knownHosts)
    && !id.provisioned
  }

  /** The session's key for a configured one: its name, its identity, which the project may use, and its hosts. */
  ghost predicate GivenAs(env: Env, project: string, key: Key, profiles: map<string, Profile>, given: SessionKey) {
    && given.name == TrimSpace(key.name)
    && ResolveIdentity(env, key, profiles) == Some(given.identity) && env.usable(project, given.identity)
    && (if HostsOf(key, profiles) == [] then given.allowed == []
        else SessionHosts(env, HostsOf(key, profiles)) == Some(given.allowed))
  }

  lemma GivenIff(env: Env, project: string, key: Key, profiles: map<string, Profile>, given: SessionKey)
    requires !Blank(key.name)
    ensures ResolveEntry(env, project, key, profiles) == Some(given) <==> GivenAs(env, project, key, profiles, given)
  {
    hide TrimSpace;
    hide ResolveIdentity;
    hide SessionHosts;
    hide HostsOf;
  }

  /** A project with SSH keys that load gets exactly them, in their order, or is refused when one of them cannot be given;
      one without keys is left alone. */
  lemma ResolvesTo(env: Env, cfg: Config, project: string, keys: seq<SessionKey>)
    requires Loadable(env, cfg) && project in cfg.projects && cfg.projects[project].ssh.Some?
    ensures var configured := cfg.projects[project].ssh.value.keys;
            && (Resolve(env, cfg, project) == Unmanaged <==> configured == [])
            && (Resolve(env, cfg, project) == Managed(keys) <==>
                  configured != [] && |keys| == |configured|
                  && forall i :: 0 <= i < |keys| ==> GivenAs(env, project, configured[i], cfg.profiles, keys[i]))
  {
    var c := cfg.projects[project].ssh.value;
    assert SSHOk(env, c, cfg.profiles);
    NamesFilled(env, c, cfg.profiles);
    EntriesHold(env, project, c.keys, cfg.profiles);
    ResolveIs(env, cfg, project);
    hide Resolve;
    hide Loadable;
    hide SSHOk;
    hide ResolveEntry;
    hide GivenAs;
    hide Blank;
    forall i | 0 <= i < |c.keys| && |keys| == |c.keys|
      ensures ResolveEntry(env, project, c.keys[i], cfg.profiles) == Some(keys[i])
              <==> GivenAs(env, project, c.keys[i], cfg.profiles, keys[i])
    {
      GivenIff(env, project, c.keys[i], cfg.profiles, keys[i]);
    }
    EntriesAre(env, project, c.keys, cfg.profiles, keys);
  }

  lemma NamesFilled(env: Env, c: SSH, profiles: map<string, Profile>)
    requires SSHOk(env, c, profiles)
    ensures forall i :: 0 <= i < |c.keys| ==> !Blank(c.keys[i].name)
  {
    hide Overlap;
    hide Normalized;
    forall i | 0 <= i < |c.keys|
      ensures !Blank(c.keys[i].name)
    {
      assert KeyForm(env, c.keys[i]);
    }
  }

  lemma EntriesAre(env: Env, project: string, configured: seq<Key>, profiles: map<string, Profile>, keys: seq<SessionKey>)
    ensures ResolveEntries(env, project, configured, profiles) == Some(keys) <==>
            |keys| == |configured|
            && forall i :: 0 <= i < |keys| ==> ResolveEntry(env, project, configured[i], profiles) == Some(keys[i])
  {
    EntriesHold(env, project, configured, profiles);
    hide ResolveEntry;
    hide ResolveEntries;
    if |keys| == |configured| && forall i :: 0 <= i < |keys| ==> ResolveEntry(env, project, configured[i], profiles) == Some(keys[i]) {
      forall k | k in configured
        ensures ResolveEntry(env, project, k, profiles).Some?
      {
        var i :| 0 <= i < |configured| && configured[i] == k;
      }
      assert ResolveEntries(env, project, configured, profiles).value == keys;
    }
  }

  lemma ResolveIs(env: Env, cfg: Config, project: string)
    requires Loadable(env, cfg) && project in cfg.projects && cfg.projects[project].ssh.Some?
    ensures var configured := cfg.projects[project].ssh.value.keys;
            Resolve(env, cfg, project) ==
            if configured == [] then Unmanaged
            else match ResolveEntries(env, project, configured, cfg.profiles) case None => Refused case Some(keys) => Managed(keys)
  {
    var c := cfg.projects[project].ssh.value;
    assert SSHOk(env, c, cfg.profiles);
    hide Loadable;
    hide FormOk;
    hide RefsOk;
    hide ResolveEntries;
  }

  /** A project with the older entry alone gets its one key, under the path of the private key. */
  lemma ResolvesLegacy(env: Env, cfg: Config, project: string, keys: seq<SessionKey>)
    requires Loadable(env, cfg) && project in cfg.projects
    requires cfg.projects[project].ssh == None && cfg.projects[project].gitSSH.Some?
    ensures var g := cfg.projects[project].gitSSH.value;
            Resolve(env, cfg, project) == Managed(keys) <==>
            |keys| == 1 && env.canonical(g.privateKey) == Some(keys[0].identity.privateKey)
            && env.canonical(g.knownHosts) == Some(keys[0].identity.knownHosts) && !keys[0].identity.provisioned
            && keys[0].name == keys[0].identity.privateKey
            && SessionHosts(env, g.allowedHosts) == Some(keys[0].allowed) && env.usable(project, keys[0].identity)
    ensures Resolve(env, cfg, project) != Unmanaged
  {
    hide Loadable;
    hide SessionHosts;
    assert |keys| == 1 ==> keys == [keys[0]];
  }

  /** A project that says nothing of SSH is left alone, and nothing is given from a configuration that does not load. */
  lemma OtherwiseResolved(env: Env, cfg: Config, project: string)
    ensures Loadable(env, cfg) && (project !in cfg.projects || (cfg.projects[project].ssh == None && cfg.projects[project].gitSSH == None))
            ==> Resolve(env, cfg, project) == Unmanaged
    ensures !Loadable(env, cfg) ==> Resolve(env, cfg, project) == Refused
  {
    hide Loadable;
  }

  /** A key matches a host when one of its allowed patterns does, whatever the host's case and outer space. */
  lemma SelectsIff(env: Env, keys: seq<SessionKey>, host: string, i: nat)
    requires i < |keys| && NamedOnce(keys)
    ensures Select(env, keys, host) == Some(keys[i]) <==>
            forall j :: 0 <= j < |keys| ==> ((exists p :: p in keys[j].allowed && env.matches(p, env.lower(TrimSpace(host)))) <==> j == i)
  {
    SelectIsOnly(env, keys, host, keys[i]);
    hide Select;
    hide TrimSpace;
    forall j | 0 <= j < |keys|
      ensures Matches(env, keys[j], host) <==> exists p :: p in keys[j].allowed && env.matches(p, env.lower(TrimSpace(host)))
    {
    }
    hide Matches;
    if forall j :: 0 <= j < |keys| ==> (Matches(env, keys[j], host) <==> j == i) {
      forall x | x in keys && Matches(env, x, host)
        ensures x == keys[i]
      {
        var j :| 0 <= j < |keys| && keys[j] == x;
      }
    }
    if Select(env, keys, host) == Some(keys[i]) {
      forall j | 0 <= j < |keys| && Matches(env, keys[j], host)
        ensures j == i
      {
        assert keys[j] == keys[i] && keys[j].name == keys[i].name;
      }
    }
  }

  /** A run is a configuration, or a run and one more command on its last configuration, which it changes or refuses. */
  lemma RunsAre(env: Env, cfg: Config, states: seq<Config>, cmds: seq<Command>, next: Config, cmd: Command)
    requires states != []
    ensures IsRun(env, [cfg], [])
    ensures IsRun(env, states + [next], cmds + [cmd]) <==>
            var last := states[|states| - 1];
            IsRun(env, states, cmds) && (next == last || Run(env, last, cmd) == Some(next))
  {
    hide Run;
    var n, more, all := |cmds|, states + [next], cmds + [cmd];
    if IsRun(env, more, all) {
      assert all[n] == cmd && more[n] == states[|states| - 1] && more[n + 1] == next;
      forall i | 0 <= i < n
        ensures states[i + 1] == states[i] || Run(env, states[i], cmds[i]) == Some(states[i + 1])
      {
        assert all[i] == cmds[i] && more[i] == states[i] && more[i + 1] == states[i + 1];
      }
    }
  }
}
