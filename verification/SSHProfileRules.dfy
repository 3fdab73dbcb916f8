/** The SSH key and profile commands as changes of the configuration. A refused command changes nothing. */
module SSHProfileRules {
  import opened Wrappers
  import opened Text
  import opened SSHProfiles

  datatype Command =
    | AddKey(project: string, name: string, hosts: seq<string>, inventory: string, profile: string, keyArg: string)
    | RemoveKey(project: string, name: string)
    | Unset(project: string, selection: string)
    | AddProfile(name: string, privateKey: string, knownHosts: string, defaultHosts: seq<string>, description: string)
    | RemoveProfile(name: string, force: bool)
    | RenameProfile(oldName: string, newName: string)

  predicate HasOverrides(p: Project) {
    p.docker || p.readDirs != [] || p.writeDirs != [] || p.ssh.Some? || p.gitSSH.Some?
  }

  function ProjectOf(cfg: Config, project: string): Project {
    if project in cfg.projects then cfg.projects[project] else NOPROJECT
  }

  function KeysOf(p: Project): seq<Key> {
    if p.ssh.Some? then p.ssh.value.keys else []
  }

  function Put(projects: map<string, Project>, project: string, p: Project): map<string, Project> {
    if HasOverrides(p) then projects[project := p] else projects - {project}
  }

  function WithKeys(p: Project, keys: seq<Key>): Project {
    p.(ssh := if keys == [] then None else Some(SSH("", "", "", keys)))
  }

  predicate Points(key: Key, profile: string) {
    TrimSpace(key.profile) == profile
  }

  /** One of the project's keys uses the profile. */
  predicate Refers(p: Project, profile: string) {
    p.ssh.Some? && exists k :: k in p.ssh.value.keys && Points(k, profile)
  }

  /** `findProfileReferrers`, without the order. */
  function Referrers(cfg: Config, profile: string): set<string> {
    if profile == "" then {} else set p | p in cfg.projects && Refers(cfg.projects[p], profile)
  }

  function NotNamed(name: string): Key -> bool {
    (k: Key) => k.name != name
  }

  function NotPointing(profile: string): Key -> bool {
    (k: Key) => !Points(k, profile)
  }

  function Detach(p: Project, profile: string): Project {
    WithKeys(p, Keep(KeysOf(p), NotPointing(profile)))
  }

  function Retarget(key: Key, oldName: string, newName: string): Key {
    if Points(key, oldName) then key.(profile := newName) else key
  }

  function Retargeted(keys: seq<Key>, oldName: string, newName: string): seq<Key> {
    seq(|keys|, i requires 0 <= i < |keys| => Retarget(keys[i], oldName, newName))
  }

  function RetargetProject(p: Project, oldName: string, newName: string): Project {
    if p.ssh == None then p
    else p.(ssh := Some(p.ssh.value.(keys := Retargeted(p.ssh.value.keys, oldName, newName))))
  }

  /** The key an `ssh add` makes; None when its source is missing, ambiguous or unknown. */
  function NewKey(env: Env, cfg: Config, cmd: Command): Option<Key>
    requires cmd.AddKey?
  {
    var name, inventory := TrimSpace(cmd.name), TrimSpace(cmd.inventory);
    var profile, keyArg := TrimSpace(cmd.profile), TrimSpace(cmd.keyArg);
    if name == "" then None
    else if profile != "" && inventory == "" && keyArg == "" then
      if profile in cfg.profiles then Some(Key(name, profile, "", "", "", cmd.hosts)) else None
    else if profile == "" && inventory != "" && keyArg == "" then
      if env.provisioned(inventory).Some? then Some(Key(name, "", inventory, "", "", cmd.hosts)) else None
    else if profile == "" && inventory == "" && keyArg != "" then
      match env.keyArgument(keyArg)
      case None => None
      case Some(id) => Some(Key(name, "", "", id.privateKey, id.knownHosts, cmd.hosts))
    else None
  }

  function RunAddKey(env: Env, cfg: Config, cmd: Command): Option<Config>
    requires cmd.AddKey?
  {
    match NewKey(env, cfg, cmd)
    case None => None
    case Some(key) =>
      var p := ProjectOf(cfg, cmd.project);
      var ssh := SSH("", "", "", KeysOf(p) + [key]);
      if (exists k :: k in KeysOf(p) && k.name == key.name) || !FormOk(env, ssh) || !RefsOk(env, ssh, cfg.profiles) then None
      else Some(cfg.(projects := cfg.projects[cmd.project := p.(ssh := Some(ssh), gitSSH := None)]))
  }

  function RunRemoveKey(env: Env, cfg: Config, project: string, nameArg: string): Option<Config> {
    var name := TrimSpace(nameArg);
    var p := ProjectOf(cfg, project);
    if name == "" || !exists k :: k in KeysOf(p) && k.name == name then None
    else
      var p' := WithKeys(p, Keep(KeysOf(p), NotNamed(name)));
      if p'.ssh.Some? && !FormOk(env, p'.ssh.value) then None
      else Some(cfg.(projects := Put(cfg.projects, project, p')))
  }

  /** Which names `unset` accepts as a confirmation is left to `env`. */
  function RunUnset(env: Env, cfg: Config, project: string, selection: string): Option<Config> {
    var p := ProjectOf(cfg, project);
    if p.ssh == None && p.gitSSH == None then Some(cfg)
    else if TrimSpace(selection) != "" && !env.confirms(p, TrimSpace(selection)) then None
    else Some(cfg.(projects := Put(cfg.projects, project, p.(ssh := None, gitSSH := None))))
  }

  function NewProfile(env: Env, cmd: Command): Option<Profile>
    requires cmd.AddProfile?
  {
    if TrimSpace(cmd.privateKey) == "" || env.canonical(cmd.privateKey) == None then None
    else if TrimSpace(cmd.knownHosts) != "" && env.canonical(cmd.knownHosts) == None then None
    else
      var knownHosts := if TrimSpace(cmd.knownHosts) == "" then "" else env.canonical(cmd.knownHosts).value;
      Some(Profile(env.canonical(cmd.privateKey).value, knownHosts, cmd.defaultHosts, TrimSpace(cmd.description)))
  }

  function RunAddProfile(env: Env, cfg: Config, cmd: Command): Option<Config>
    requires cmd.AddProfile?
  {
    var name := TrimSpace(cmd.name);
    if !ValidName(name) || name in cfg.profiles then None
    else
      match NewProfile(env, cmd)
      case None => None
      case Some(profile) =>
        var profiles := cfg.profiles[name := profile];
        if ProfilesOk(env, profiles) then Some(cfg.(profiles := profiles)) else None
  }

  function RunRemoveProfile(cfg: Config, nameArg: string, force: bool): Option<Config> {
    var name := TrimSpace(nameArg);
    var referrers := Referrers(cfg, name);
    if name !in cfg.profiles || (referrers != {} && !force) then None
    else
      Some(Config(cfg.profiles - {name},
                  map p | p in cfg.projects && (p in referrers ==> HasOverrides(Detach(cfg.projects[p], name))) ::
                    if p in referrers then Detach(cfg.projects[p], name) else cfg.projects[p]))
  }

  function RunRenameProfile(cfg: Config, oldArg: string, newArg: string): Option<Config> {
    var oldName, newName := TrimSpace(oldArg), TrimSpace(newArg);
    if oldName == "" || !ValidName(newName) || oldName == newName || oldName !in cfg.profiles || newName in cfg.profiles
    then None
    else
      Some(Config((cfg.profiles - {oldName})[newName := cfg.profiles[oldName]],
                  map p | p in cfg.projects :: RetargetProject(cfg.projects[p], oldName, newName)))
  }

  /** A command on a configuration that does not load is refused. */
  function Run(env: Env, cfg: Config, cmd: Command): Option<Config> {
    if !Loadable(env, cfg) then None
    else
      match cmd
      case AddKey(_, _, _, _, _, _) => RunAddKey(env, cfg, cmd)
      case RemoveKey(project, name) => RunRemoveKey(env, cfg, project, name)
      case Unset(project, selection) => RunUnset(env, cfg, project, selection)
      case AddProfile(_, _, _, _, _) => RunAddProfile(env, cfg, cmd)
      case RemoveProfile(name, force) => RunRemoveProfile(cfg, name, force)
      case RenameProfile(oldName, newName) => RunRenameProfile(cfg, oldName, newName)
  }

  // ---- loadable configurations stay loadable ------------------------------------------------------------------

  lemma TrimTwice(s: string)
    ensures TrimSpace(TrimSpace(s)) == TrimSpace(s)
  {
    TrimTrimmed(TrimSpace(s));
  }

  /** What a key resolves to depends only on the profile it names. */
  predicate SameFor(key: Key, a: map<string, Profile>, b: map<string, Profile>) {
    var name := TrimSpace(key.profile);
    name != "" ==> (name in a <==> name in b) && (name in a ==> a[name] == b[name])
  }

  lemma {:induction false} KeysOkElsewhere(env: Env, keys: seq<Key>, a: map<string, Profile>, b: map<string, Profile>)
    requires KeysOk(env, keys, a) && forall k :: k in keys ==> SameFor(k, a, b)
    ensures KeysOk(env, keys, b)
  {
    hide TrimSpace;
    hide Normalized;
    hide KeyForm;
    hide PairForm;
    forall k | k in keys
      ensures KeyOk(env, k, b) && Effective(env, k, b) == Effective(env, k, a)
    {
      assert KeyOk(env, k, a) && SameFor(k, a, b);
    }
    forall i, j | 0 <= i < j < |keys|
      ensures PairOk(env, keys[i], keys[j], b)
    {
      assert PairOk(env, keys[i], keys[j], a);
    }
  }

  lemma RetargetOk(env: Env, key: Key, oldName: string, newName: string, a: map<string, Profile>, b: map<string, Profile>)
    requires KeyOk(env, key, a) && oldName in a && newName !in a && oldName != "" && newName != ""
    requires TrimSpace(newName) == newName && b == (a - {oldName})[newName := a[oldName]]
    ensures KeyOk(env, Retarget(key, oldName, newName), b)
    ensures Effective(env, Retarget(key, oldName, newName), b) == Effective(env, key, a)
  {
    hide TrimSpace;
    hide Normalized;
    hide ValidName;
  }

  lemma {:induction false} RetargetedOk(env: Env, keys: seq<Key>, oldName: string, newName: string,
                                        a: map<string, Profile>, b: map<string, Profile>)
    requires KeysOk(env, keys, a) && oldName in a && newName !in a && oldName != "" && newName != ""
    requires TrimSpace(newName) == newName && b == (a - {oldName})[newName := a[oldName]]
    ensures KeysOk(env, Retargeted(keys, oldName, newName), b)
  {
    var keys' := Retargeted(keys, oldName, newName);
    assert |keys'| == |keys| && forall i :: 0 <= i < |keys| ==> keys'[i] == Retarget(keys[i], oldName, newName);
    hide KeyOk;
    hide PairOk;
    hide Retarget;
    hide Retargeted;
    hide TrimSpace;
    forall k | k in keys'
      ensures KeyOk(env, k, b)
    {
      var i :| 0 <= i < |keys'| && keys'[i] == k;
      assert keys[i] in keys;
      RetargetOk(env, keys[i], oldName, newName, a, b);
    }
    forall i, j | 0 <= i < j < |keys|
      ensures PairOk(env, keys'[i], keys'[j], b)
    {
      assert keys[i] in keys && keys[j] in keys;
      assert PairOk(env, keys[i], keys[j], a);
      RetargetPair(env, keys[i], keys[j], oldName, newName, a, b);
    }
  }

  lemma RetargetPair(env: Env, x: Key, y: Key, oldName: string, newName: string, a: map<string, Profile>, b: map<string, Profile>)
    requires KeyOk(env, x, a) && KeyOk(env, y, a) && PairOk(env, x, y, a)
    requires oldName in a && newName !in a && oldName != "" && newName != ""
    requires TrimSpace(newName) == newName && b == (a - {oldName})[newName := a[oldName]]
    ensures KeyOk(env, Retarget(x, oldName, newName), b) && KeyOk(env, Retarget(y, oldName, newName), b)
    ensures PairOk(env, Retarget(x, oldName, newName), Retarget(y, oldName, newName), b)
  {
    RetargetOk(env, x, oldName, newName, a, b);
    RetargetOk(env, y, oldName, newName, a, b);
    hide TrimSpace;
    hide Normalized;
    hide Effective;
    hide KeyForm;
    hide KeyRefs;
    hide Overlap;
  }

  lemma KeptSSHOk(env: Env, c: SSH, f: Key -> bool, profiles: map<string, Profile>)
    requires SSHOk(env, c, profiles)
    ensures KeysOk(env, Keep(c.keys, f), profiles)
  {
    SSHOkIsKeysOk(env, c, profiles);
    KeepOk(env, c.keys, f, profiles);
  }

  lemma PlainSSHOk(env: Env, keys: seq<Key>, profiles: map<string, Profile>)
    requires KeysOk(env, keys, profiles)
    ensures SSHOk(env, SSH("", "", "", keys), profiles)
  {
    SSHOkIsKeysOk(env, SSH("", "", "", keys), profiles);
    assert TrimSpace("") == "";
  }

  lemma AddKeyLoadable(env: Env, cfg: Config, cmd: Command)
    requires Loadable(env, cfg) && cmd.AddKey? && RunAddKey(env, cfg, cmd).Some?
    ensures Loadable(env, RunAddKey(env, cfg, cmd).value)
  {
    hide FormOk;
    hide RefsOk;
    hide NewKey;
    hide ProfilesOk;
  }

  lemma RemoveKeyLoadable(env: Env, cfg: Config, project: string, name: string)
    requires Loadable(env, cfg) && RunRemoveKey(env, cfg, project, name).Some?
    ensures Loadable(env, RunRemoveKey(env, cfg, project, name).value)
  {
    var p := ProjectOf(cfg, project);
    var kept := Keep(KeysOf(p), NotNamed(TrimSpace(name)));
    assert p.ssh.Some?;
    KeptSSHOk(env, p.ssh.value, NotNamed(TrimSpace(name)), cfg.profiles);
    PlainSSHOk(env, kept, cfg.profiles);
    hide SSHOk;
    hide ProfilesOk;
    hide TrimSpace;
  }

  lemma DetachLoadable(env: Env, p: Project, name: string, a: map<string, Profile>)
    requires p.ssh.Some? && SSHOk(env, p.ssh.value, a) && name != ""
    ensures Detach(p, name).ssh.Some? ==> SSHOk(env, Detach(p, name).ssh.value, a - {name})
  {
    var f := NotPointing(name);
    var kept := Keep(p.ssh.value.keys, f);
    KeptSSHOk(env, p.ssh.value, f, a);
    KeepHolds(p.ssh.value.keys, f);
    hide SSHOk;
    hide KeysOk;
    KeysOkElsewhere(env, kept, a, a - {name});
    PlainSSHOk(env, kept, a - {name});
  }

  lemma UnreferredLoadable(env: Env, p: Project, name: string, a: map<string, Profile>)
    requires p.ssh.Some? && SSHOk(env, p.ssh.value, a) && !Refers(p, name)
    ensures SSHOk(env, p.ssh.value, a - {name})
  {
    NotReferring(p, name, a);
    hide *;
    SSHOkIsKeysOk(env, p.ssh.value, a);
    KeysOkElsewhere(env, p.ssh.value.keys, a, a - {name});
    SameKeysOk(env, p.ssh.value, a, a - {name});
  }

  lemma NotReferring(p: Project, name: string, a: map<string, Profile>)
    requires p.ssh.Some? && !Refers(p, name)
    ensures forall k :: k in p.ssh.value.keys ==> SameFor(k, a, a - {name})
  {
    hide TrimSpace;
    forall k | k in p.ssh.value.keys
      ensures SameFor(k, a, a - {name})
    {
      assert !Points(k, name);
    }
  }

  lemma SameKeysOk(env: Env, c: SSH, a: map<string, Profile>, b: map<string, Profile>)
    requires SSHOk(env, c, a) && KeysOk(env, c.keys, b)
    ensures SSHOk(env, c, b)
  {
    hide KeysOk;
    hide FormOk;
    hide RefsOk;
    SSHOkIsKeysOk(env, c, a);
    SSHOkIsKeysOk(env, c, b);
  }

  lemma RemoveProfileLoadable(env: Env, cfg: Config, nameArg: string, force: bool)
    requires Loadable(env, cfg) && RunRemoveProfile(cfg, nameArg, force).Some?
    ensures Loadable(env, RunRemoveProfile(cfg, nameArg, force).value)
  {
    var name := TrimSpace(nameArg);
    var after := RunRemoveProfile(cfg, nameArg, force).value;
    assert TrimSpace("") == "";
    assert ProfileOk(env, name, cfg.profiles[name]);
    hide TrimSpace;
    forall p | p in after.projects && after.projects[p].ssh.Some?
      ensures SSHOk(env, after.projects[p].ssh.value, after.profiles)
    {
      if p in Referrers(cfg, name) {
        DetachLoadable(env, cfg.projects[p], name, cfg.profiles);
      } else {
        UnreferredLoadable(env, cfg.projects[p], name, cfg.profiles);
      }
    }
  }

  lemma RenameProfileLoadable(env: Env, cfg: Config, oldArg: string, newArg: string)
    requires Loadable(env, cfg) && RunRenameProfile(cfg, oldArg, newArg).Some?
    ensures Loadable(env, RunRenameProfile(cfg, oldArg, newArg).value)
  {
    var after := RunRenameProfile(cfg, oldArg, newArg).value;
    RenamedProfilesOk(env, cfg, oldArg, newArg);
    forall p | p in after.projects && after.projects[p].ssh.Some?
      ensures SSHOk(env, after.projects[p].ssh.value, after.profiles)
    {
      RenamedKeysOk(env, cfg, oldArg, newArg, p);
    }
    hide TrimSpace;
    hide ProfileOk;
    hide SSHOk;
    hide RunRenameProfile;
  }

  lemma RenamedProfilesOk(env: Env, cfg: Config, oldArg: string, newArg: string)
    requires Loadable(env, cfg) && RunRenameProfile(cfg, oldArg, newArg).Some?
    ensures var after := RunRenameProfile(cfg, oldArg, newArg).value;
            forall n :: n in after.profiles ==> ProfileOk(env, n, after.profiles[n])
  {
    var oldName, newName := TrimSpace(oldArg), TrimSpace(newArg);
    var after := RunRenameProfile(cfg, oldArg, newArg).value;
    TrimTwice(newArg);
    hide TrimSpace;
    hide SSHOk;
    assert ProfileOk(env, oldName, cfg.profiles[oldName]);
    forall n | n in after.profiles
      ensures ProfileOk(env, n, after.profiles[n])
    {
      if n != newName {
        assert ProfileOk(env, n, cfg.profiles[n]);
      }
    }
  }

  lemma RenamedKeysOk(env: Env, cfg: Config, oldArg: string, newArg: string, p: string)
    requires Loadable(env, cfg) && RunRenameProfile(cfg, oldArg, newArg).Some?
    requires var after := RunRenameProfile(cfg, oldArg, newArg).value; p in after.projects && after.projects[p].ssh.Some?
    ensures var after := RunRenameProfile(cfg, oldArg, newArg).value; SSHOk(env, after.projects[p].ssh.value, after.profiles)
  {
    var oldName, newName := TrimSpace(oldArg), TrimSpace(newArg);
    var after := RunRenameProfile(cfg, oldArg, newArg).value;
    hide TrimSpace;
    hide ProfileOk;
    hide ValidName;
    hide KeyForm;
    hide KeyRefs;
    hide FormOk;
    hide RefsOk;
    hide Flat;
    var c, c' := cfg.projects[p].ssh.value, after.projects[p].ssh.value;
    assert SSHOk(env, c, cfg.profiles);
    SSHOkIsKeysOk(env, c, cfg.profiles);
    SSHOkIsKeysOk(env, c', after.profiles);
    hide KeysOk;
    RetargetedOk(env, c.keys, oldName, newName, cfg.profiles, after.profiles);
  }

  lemma AddProfileLoadable(env: Env, cfg: Config, cmd: Command)
    requires Loadable(env, cfg) && cmd.AddProfile? && RunAddProfile(env, cfg, cmd).Some?
    ensures Loadable(env, RunAddProfile(env, cfg, cmd).value)
  {
    hide TrimSpace;
    hide SSHOk;
    var after := RunAddProfile(env, cfg, cmd).value;
    var name := TrimSpace(cmd.name);
    forall p | p in cfg.projects && cfg.projects[p].ssh.Some?
      ensures SSHOk(env, cfg.projects[p].ssh.value, after.profiles)
    {
      NewProfileOk(env, cfg.projects[p].ssh.value, cfg.profiles, name, after.profiles[name]);
    }
  }

  lemma NewProfileOk(env: Env, c: SSH, a: map<string, Profile>, name: string, profile: Profile)
    requires SSHOk(env, c, a) && name !in a
    ensures SSHOk(env, c, a[name := profile])
  {
    var b := a[name := profile];
    SSHOkIsKeysOk(env, c, a);
    SSHOkIsKeysOk(env, c, b);
    hide SSHOk;
    hide TrimSpace;
    hide KeyForm;
    hide Effective;
    forall k | k in c.keys
      ensures SameFor(k, a, b)
    {
      assert KeyOk(env, k, a);
    }
    hide KeysOk;
    hide SameFor;
    KeysOkElsewhere(env, c.keys, a, b);
  }

  /** Every command keeps the configuration loadable: profiles defined, names unique in each project, hosts disjoint. */
  lemma RunLoadable(env: Env, cfg: Config, cmd: Command)
    requires Run(env, cfg, cmd).Some?
    ensures Loadable(env, cfg) && Loadable(env, Run(env, cfg, cmd).value)
  {
    match cmd
    case AddKey(_, _, _, _, _, _) => AddKeyLoadable(env, cfg, cmd);
    case RemoveKey(project, name) => RemoveKeyLoadable(env, cfg, project, name);
    case Unset(project, selection) => hide SSHOk; hide ProfilesOk; hide TrimSpace;
    case AddProfile(_, _, _, _, _) => AddProfileLoadable(env, cfg, cmd);
    case RemoveProfile(name, force) => RemoveProfileLoadable(env, cfg, name, force);
    case RenameProfile(oldName, newName) => RenameProfileLoadable(env, cfg, oldName, newName);
  }

  /** A run of commands: each takes effect, or is refused or cannot be saved and changes nothing. */
  ghost predicate IsRun(env: Env, states: seq<Config>, cmds: seq<Command>) {
    && |states| == |cmds| + 1
    && forall i :: 0 <= i < |cmds| ==>
         states[i + 1] == states[i] || Run(env, states[i], cmds[i]) == Some(states[i + 1])
  }

  lemma {:induction false} RunsStayLoadable(env: Env, states: seq<Config>, cmds: seq<Command>, k: nat)
    requires IsRun(env, states, cmds) && Loadable(env, states[0]) && k <= |cmds|
    ensures Loadable(env, states[k])
  {
    hide Loadable;
    hide Run;
    if k > 0 {
      RunsStayLoadable(env, states, cmds, k - 1);
      if states[k] != states[k - 1] {
        RunLoadable(env, states[k - 1], cmds[k - 1]);
      }
    }
  }

  /** What loadable means for one project: every profile named is defined, and key names differ. */
  lemma LoadableMeans(env: Env, cfg: Config, project: string, i: nat, j: nat)
    requires Loadable(env, cfg) && i < j < |KeysOf(ProjectOf(cfg, project))|
    ensures var keys := KeysOf(ProjectOf(cfg, project));
            && TrimSpace(keys[i].name) != TrimSpace(keys[j].name)
            && (TrimSpace(keys[i].profile) != "" ==> TrimSpace(keys[i].profile) in cfg.profiles)
            && (TrimSpace(keys[j].profile) != "" ==> TrimSpace(keys[j].profile) in cfg.profiles)
  {
    hide TrimSpace;
    hide Normalized;
    hide KeyForm;
    var c := cfg.projects[project].ssh.value;
    assert SSHOk(env, c, cfg.profiles);
    assert PairForm(env, c.keys[i], c.keys[j]);
    assert KeyRefs(env, c.keys[i], cfg.profiles) && KeyRefs(env, c.keys[j], cfg.profiles);
  }

  /** A key command changes nothing outside its project. */
  lemma KeyCommandsStayInProject(env: Env, cfg: Config, cmd: Command, other: string)
    requires cmd.AddKey? || cmd.RemoveKey? || cmd.Unset?
    requires Run(env, cfg, cmd).Some? && other != cmd.project
    ensures ProjectOf(Run(env, cfg, cmd).value, other) == ProjectOf(cfg, other)
    ensures Run(env, cfg, cmd).value.profiles == cfg.profiles
  {
    hide Loadable;
    hide FormOk;
    hide RefsOk;
    hide TrimSpace;
    hide NewKey;
  }
}
