/** The validators and the commands in place, on the configuration file. */
module SSHCommands {
  import opened Wrappers
  import opened Text
  import opened SSHProfiles
  import opened SSHProfileRules

  /** `normalizeProjectSSHHosts` */
  method NormalizeProjectSSHHosts(env: Env, hosts: seq<string>) returns (r: Option<set<string>>)
    ensures r == Normalized(env, hosts)
  {
    var found: set<string> := {};
    for i := 0 to |hosts|
      invariant found == set h | h in hosts[..i] && Clean(env, h) != "" :: Clean(env, h)
      invariant forall h :: h in hosts[..i] && Clean(env, h) != "" ==> env.hostPattern(Clean(env, h))
    {
      assert hosts[..i + 1] == hosts[..i] + [hosts[i]];
      var host := Clean(env, hosts[i]);
      hide Clean;
      if host == "" {
        continue;
      }
      if !env.hostPattern(host) {
        return None;
      }
      found := found + {host};
    }
    assert hosts[..|hosts|] == hosts;
    return Some(found);
  }

  method WildcardHostOverlap(env: Env, pattern: string, hosts: set<string>) returns (r: bool)
    ensures r == WildcardOverlap(env, pattern, hosts)
  {
    if !Wild(pattern) {
      return false;
    }
    var rest := hosts;
    while rest != {}
      invariant rest <= hosts
      invariant forall h :: h in hosts - rest ==> !env.matches(pattern, h)
    {
      var host :| host in rest;
      if env.matches(pattern, host) {
        return true;
      }
      rest := rest - {host};
    }
    return false;
  }

  method FirstHostOverlap(env: Env, a: set<string>, b: set<string>) returns (r: bool)
    ensures r == Overlap(env, a, b)
  {
    hide WildcardOverlap;
    var rest := a;
    while rest != {}
      invariant rest <= a
      invariant forall h :: h in a - rest ==> h !in b && !WildcardOverlap(env, h, b)
    {
      var host :| host in rest;
      var wild := WildcardHostOverlap(env, host, b);
      if host in b || wild {
        return true;
      }
      rest := rest - {host};
    }
    rest := b;
    while rest != {}
      invariant rest <= b
      invariant forall h :: h in b - rest ==> !WildcardOverlap(env, h, a)
    {
      var host :| host in rest;
      var wild := WildcardHostOverlap(env, host, a);
      if wild {
        return true;
      }
      rest := rest - {host};
    }
    return false;
  }

  /** The pairwise comparison both validators end with. */
  method AllDisjoint(env: Env, sets: seq<set<string>>) returns (r: bool)
    ensures r == forall i, j :: 0 <= i < j < |sets| ==> !Overlap(env, sets[i], sets[j])
  {
    hide Overlap;
    for i := 0 to |sets|
      invariant forall m, j :: 0 <= m < i && m < j < |sets| ==> !Overlap(env, sets[m], sets[j])
    {
      for j := i + 1 to |sets|
        invariant forall m :: i < m < j ==> !Overlap(env, sets[i], sets[m])
      {
        var overlap := FirstHostOverlap(env, sets[i], sets[j]);
        if overlap {
          return false;
        }
      }
    }
    return true;
  }

  method ValidateProjectSSHKeyIdentity(key: Key) returns (r: bool)
    ensures r == OneSource(key)
  {
    var count := 0;
    if TrimSpace(key.profile) != "" {
      count := count + 1;
    }
    if TrimSpace(key.privateKey) != "" {
      count := count + 1;
    }
    if TrimSpace(key.inventory) != "" {
      count := count + 1;
    }
    return count == 1;
  }

  lemma KeyFormIs(env: Env, key: Key)
    ensures KeyForm(env, key) <==>
            && ValidName(TrimSpace(key.name)) && OneSource(key) && Normalized(env, key.hosts).Some?
            && (Normalized(env, key.hosts).value == {} ==> TrimSpace(key.profile) != "")
  {
    hide TrimSpace;
    hide Normalized;
    hide OneSource;
    hide ValidName;
  }

  method ValidateKeyForms(env: Env, keys: seq<Key>) returns (r: bool, sets: seq<set<string>>)
    ensures r == ((forall k :: k in keys ==> KeyForm(env, k))
                  && forall i, j :: 0 <= i < j < |keys| ==> TrimSpace(keys[i].name) != TrimSpace(keys[j].name))
    ensures r ==> |sets| == |keys| && forall i :: 0 <= i < |keys| ==> Some(sets[i]) == Normalized(env, keys[i].hosts)
  {
    hide TrimSpace;
    hide Normalized;
    hide OneSource;
    hide ValidName;
    hide KeyForm;
    var seenName: set<string> := {};
    sets := [];
    var inlineEmpty := 0;
    ghost var emptyAt := 0;
    for i := 0 to |keys|
      invariant |sets| == i && inlineEmpty >= 0
      invariant forall m :: 0 <= m < i ==> Some(sets[m]) == Normalized(env, keys[m].hosts)
      invariant forall n :: n in seenName <==> exists m :: 0 <= m < i && TrimSpace(keys[m].name) == n
      invariant forall m, j :: 0 <= m < j < i ==> TrimSpace(keys[m].name) != TrimSpace(keys[j].name)
      invariant inlineEmpty == 0 ==> forall m :: 0 <= m < i ==> KeyForm(env, keys[m])
      invariant inlineEmpty != 0 ==> 0 <= emptyAt < i && !KeyForm(env, keys[emptyAt])
    {
      var key := keys[i];
      assert key in keys;
      KeyFormIs(env, key);
      var name := TrimSpace(key.name);
      if !ValidName(name) {
        return false, sets;
      }
      if name in seenName {
        return false, sets;
      }
      seenName := seenName + {name};
      var one := ValidateProjectSSHKeyIdentity(key);
      if !one {
        return false, sets;
      }
      var hosts := NormalizeProjectSSHHosts(env, key.hosts);
      if hosts == None {
        return false, sets;
      }
      if hosts.value == {} && TrimSpace(key.profile) == "" {
        inlineEmpty, emptyAt := inlineEmpty + 1, i;
      }
      sets := sets + [hosts.value];
    }
    if inlineEmpty > 0 {
      assert keys[emptyAt] in keys;
    }
    return inlineEmpty == 0, sets;
  }

  method ValidateProjectSSHConfig(env: Env, c: SSH) returns (r: bool)
    ensures r == FormOk(env, c)
  {
    hide TrimSpace;
    hide Normalized;
    hide OneSource;
    hide Overlap;
    var hasLegacy := TrimSpace(c.privateKey) != "" || TrimSpace(c.inventory) != "";
    if c.keys != [] && hasLegacy {
      return false;
    }
    if c.keys == [] {
      return true;
    }
    var sets;
    r, sets := ValidateKeyForms(env, c.keys);
    if !r {
      FormNeeds(env, c);
      return false;
    }
    r := AllDisjoint(env, sets);
    FormIsDisjoint(env, c, sets);
  }

  lemma FormNeeds(env: Env, c: SSH)
    ensures FormOk(env, c) ==>
              (forall k :: k in c.keys ==> KeyForm(env, k))
              && forall i, j :: 0 <= i < j < |c.keys| ==> TrimSpace(c.keys[i].name) != TrimSpace(c.keys[j].name)
  {
    hide TrimSpace;
    hide KeyForm;
    if FormOk(env, c) {
      forall i, j | 0 <= i < j < |c.keys|
        ensures TrimSpace(c.keys[i].name) != TrimSpace(c.keys[j].name)
      {
        assert PairForm(env, c.keys[i], c.keys[j]);
      }
    }
  }

  lemma FormIsDisjoint(env: Env, c: SSH, sets: seq<set<string>>)
    requires c.keys != [] ==> TrimSpace(c.privateKey) == "" && TrimSpace(c.inventory) == ""
    requires forall k :: k in c.keys ==> KeyForm(env, k)
    requires forall i, j :: 0 <= i < j < |c.keys| ==> TrimSpace(c.keys[i].name) != TrimSpace(c.keys[j].name)
    requires |sets| == |c.keys| && forall i :: 0 <= i < |c.keys| ==> Some(sets[i]) == Normalized(env, c.keys[i].hosts)
    ensures FormOk(env, c) <==> forall i, j :: 0 <= i < j < |sets| ==> !Overlap(env, sets[i], sets[j])
  {
    hide TrimSpace;
    hide Overlap;
    hide Normalized;
    forall i, j | 0 <= i < j < |c.keys|
      ensures PairForm(env, c.keys[i], c.keys[j]) <==> !Overlap(env, sets[i], sets[j])
    {
      assert c.keys[i] in c.keys && c.keys[j] in c.keys;
    }
    hide PairForm;
    hide KeyForm;
    if FormOk(env, c) {
      forall i, j | 0 <= i < j < |sets|
        ensures !Overlap(env, sets[i], sets[j])
      {
        assert PairForm(env, c.keys[i], c.keys[j]);
      }
    }
  }

  method EffectiveKeyHosts(env: Env, key: Key, profiles: map<string, Profile>) returns (r: Option<set<string>>)
    ensures r == Effective(env, key, profiles)
  {
    hide TrimSpace;
    hide Normalized;
    if key.hosts != [] {
      r := NormalizeProjectSSHHosts(env, key.hosts);
      return;
    }
    var name := TrimSpace(key.profile);
    if name == "" {
      return Some({});
    }
    if name !in profiles {
      return None;
    }
    r := NormalizeProjectSSHHosts(env, profiles[name].defaultHosts);
  }

  method ValidateProjectSSHProfileRefs(env: Env, c: SSH, profiles: map<string, Profile>) returns (r: bool)
    ensures r == RefsOk(env, c, profiles)
  {
    hide TrimSpace;
    hide Overlap;
    hide Effective;
    var sets: seq<set<string>> := [];
    for i := 0 to |c.keys|
      invariant |sets| == i
      invariant forall m :: 0 <= m < i ==> KeyRefs(env, c.keys[m], profiles)
      invariant forall m :: 0 <= m < i ==> Some(sets[m]) == Effective(env, c.keys[m], profiles)
    {
      assert c.keys[i] in c.keys;
      var name := TrimSpace(c.keys[i].profile);
      if name != "" && name !in profiles {
        return false;
      }
      var hosts := EffectiveKeyHosts(env, c.keys[i], profiles);
      if hosts == None {
        return false;
      }
      sets := sets + [hosts.value];
    }
    r := AllDisjoint(env, sets);
    RefsAreDisjoint(env, c, profiles, sets);
  }

  lemma RefsAreDisjoint(env: Env, c: SSH, profiles: map<string, Profile>, sets: seq<set<string>>)
    requires forall m :: 0 <= m < |c.keys| ==> KeyRefs(env, c.keys[m], profiles)
    requires |sets| == |c.keys| && forall m :: 0 <= m < |c.keys| ==> Some(sets[m]) == Effective(env, c.keys[m], profiles)
    ensures RefsOk(env, c, profiles) <==> forall i, j :: 0 <= i < j < |sets| ==> !Overlap(env, sets[i], sets[j])
  {
    hide TrimSpace;
    hide Overlap;
    hide Effective;
    forall i, j | 0 <= i < j < |c.keys|
      ensures PairRefs(env, c.keys[i], c.keys[j], profiles) <==> !Overlap(env, sets[i], sets[j])
    {
    }
    hide KeyRefs;
    hide PairRefs;
    if RefsOk(env, c, profiles) {
      forall i, j | 0 <= i < j < |sets|
        ensures !Overlap(env, sets[i], sets[j])
      {
        assert PairRefs(env, c.keys[i], c.keys[j], profiles);
      }
    }
  }

  method ValidateSSHProfiles(env: Env, profiles: map<string, Profile>) returns (r: bool)
    ensures r == ProfilesOk(env, profiles)
  {
    hide Normalized;
    hide TrimSpace;
    hide ValidName;
    var rest := profiles.Keys;
    while rest != {}
      invariant rest <= profiles.Keys
      invariant forall n :: n in profiles && n !in rest ==> ProfileOk(env, n, profiles[n])
    {
      var name :| name in rest;
      if !ValidName(TrimSpace(name)) || TrimSpace(profiles[name].privateKey) == "" {
        assert !ProfileOk(env, name, profiles[name]);
        return false;
      }
      var hosts := NormalizeProjectSSHHosts(env, profiles[name].defaultHosts);
      if hosts == None {
        assert !ProfileOk(env, name, profiles[name]);
        return false;
      }
      rest := rest - {name};
    }
    return true;
  }

  datatype Outcome = Done | Refused | SaveFailed

  class ConfigFile {
    const env: Env
    var cfg: Config

    constructor (env: Env, cfg: Config)
      ensures this.env == env && this.cfg == cfg
    {
      this.env, this.cfg := env, cfg;
    }

    /** The checks of `loadConfig`; the rest of it is not part of this model. */
    method LoadConfig() returns (ok: bool)
      ensures ok == Loadable(env, cfg)
    {
      hide ProfilesOk;
      hide FormOk;
      hide RefsOk;
      hide Flat;
      ok := ValidateSSHProfiles(env, cfg.profiles);
      if !ok {
        return;
      }
      var rest := cfg.projects.Keys;
      while rest != {}
        invariant rest <= cfg.projects.Keys
        invariant forall p :: p in cfg.projects && p !in rest && cfg.projects[p].ssh.Some? ==>
                    SSHOk(env, cfg.projects[p].ssh.value, cfg.profiles)
      {
        var project :| project in rest;
        rest := rest - {project};
        if cfg.projects[project].ssh == None {
          continue;
        }
        var c := cfg.projects[project].ssh.value;
        var form := ValidateProjectSSHConfig(env, c);
        var refs := ValidateProjectSSHProfileRefs(env, c, cfg.profiles);
        if Flat(c) || !form || !refs {
          assert !SSHOk(env, c, cfg.profiles);
          return false;
        }
      }
      return true;
    }

    method SaveConfig(next: Config) returns (r: Outcome)
      modifies this`cfg
      ensures r in {Done, SaveFailed} && cfg == if r == Done then next else old(cfg)
    {
      var fine: bool := *;
      if !fine {
        return SaveFailed;
      }
      cfg := next;
      return Done;
    }

    /** How a command ends: its whole effect is saved, or nothing is. */
    twostate predicate Ended(cmd: Command, r: Outcome)
      reads this
    {
      match r
      case Done => Run(env, old(cfg), cmd) == Some(cfg)
      case Refused => Run(env, old(cfg), cmd) == None && cfg == old(cfg)
      case SaveFailed => cfg == old(cfg)
    }

    method RunConfigSSHAdd(cmd: Command) returns (r: Outcome)
      requires cmd.AddKey?
      modifies this
      ensures Ended(cmd, r)
    {
      hide TrimSpace;
      hide Loadable;
      hide FormOk;
      hide RefsOk;
      hide HasOverrides;
      var loaded := LoadConfig();
      if !loaded {
        return Refused;
      }
      var made := NewKey(env, cfg, cmd);
      hide NewKey;
      if made == None {
        return Refused;
      }
      var p := ProjectOf(cfg, cmd.project);
      hide ProjectOf;
      for i := 0 to |KeysOf(p)|
        invariant forall m :: 0 <= m < i ==> KeysOf(p)[m].name != made.value.name
      {
        if KeysOf(p)[i].name == made.value.name {
          return Refused;
        }
      }
      var ssh := SSH("", "", "", KeysOf(p) + [made.value]);
      var form := ValidateProjectSSHConfig(env, ssh);
      var refs := ValidateProjectSSHProfileRefs(env, ssh, cfg.profiles);
      if !form || !refs {
        return Refused;
      }
      r := SaveConfig(cfg.(projects := cfg.projects[cmd.project := p.(ssh := Some(ssh), gitSSH := None)]));
    }

    /** The filter loop of `ssh remove`. */
    method FilterName(keys: seq<Key>, name: string) returns (filtered: seq<Key>, removed: bool)
      ensures filtered == Keep(keys, NotNamed(name))
      ensures removed == exists k :: k in keys && k.name == name
    {
      filtered, removed := [], false;
      for i := 0 to |keys|
        invariant filtered == Keep(keys[..i], NotNamed(name))
        invariant removed == exists k :: k in keys[..i] && k.name == name
      {
        assert keys[..i + 1][..i] == keys[..i];
        assert keys[..i + 1] == keys[..i] + [keys[i]];
        if keys[i].name == name {
          assert keys[i] in keys[..i + 1];
          removed := true;
          continue;
        }
        filtered := filtered + [keys[i]];
      }
      assert keys[..|keys|] == keys;
    }

    method RunConfigSSHRemove(cmd: Command) returns (r: Outcome)
      requires cmd.RemoveKey?
      modifies this
      ensures Ended(cmd, r)
    {
      hide TrimSpace;
      hide Loadable;
      hide FormOk;
      hide Keep;
      var name := TrimSpace(cmd.name);
      var loaded := LoadConfig();
      if name == "" || !loaded {
        return Refused;
      }
      var p := ProjectOf(cfg, cmd.project);
      hide ProjectOf;
      if p.ssh == None {
        return Refused;
      }
      var filtered, removed := FilterName(KeysOf(p), name);
      if !removed {
        return Refused;
      }
      var p' := WithKeys(p, filtered);
      if p'.ssh.Some? {
        var form := ValidateProjectSSHConfig(env, p'.ssh.value);
        if !form {
          return Refused;
        }
      }
      r := SaveConfig(cfg.(projects := Put(cfg.projects, cmd.project, p')));
    }

    method RunConfigSSHUnset(cmd: Command) returns (r: Outcome)
      requires cmd.Unset?
      modifies this
      ensures Ended(cmd, r)
    {
      hide TrimSpace;
      hide Loadable;
      var loaded := LoadConfig();
      if !loaded {
        return Refused;
      }
      var p := ProjectOf(cfg, cmd.project);
      if p.ssh == None && p.gitSSH == None {
        return Done;
      }
      if TrimSpace(cmd.selection) != "" && !env.confirms(p, TrimSpace(cmd.selection)) {
        return Refused;
      }
      r := SaveConfig(cfg.(projects := Put(cfg.projects, cmd.project, p.(ssh := None, gitSSH := None))));
    }

    method RunConfigSSHProfileAdd(cmd: Command) returns (r: Outcome)
      requires cmd.AddProfile?
      modifies this
      ensures Ended(cmd, r)
    {
      hide TrimSpace;
      hide Loadable;
      hide ProfilesOk;
      var name := TrimSpace(cmd.name);
      var loaded := LoadConfig();
      if !loaded || !ValidName(name) || name in cfg.profiles {
        return Refused;
      }
      var profile := NewProfile(env, cmd);
      hide NewProfile;
      if profile == None {
        return Refused;
      }
      var profiles := cfg.profiles[name := profile.value];
      var fine := ValidateSSHProfiles(env, profiles);
      if !fine {
        return Refused;
      }
      r := SaveConfig(cfg.(profiles := profiles));
    }

    method FindProfileReferrers(name: string) returns (found: set<string>)
      ensures found == Referrers(cfg, name)
    {
      found := {};
      if name == "" {
        return;
      }
      var rest := cfg.projects.Keys;
      hide TrimSpace;
      while rest != {}
        invariant rest <= cfg.projects.Keys
        invariant forall p :: p in found <==> p in cfg.projects && p !in rest && Refers(cfg.projects[p], name)
      {
        var project :| project in rest;
        rest := rest - {project};
        if cfg.projects[project].ssh == None {
          continue;
        }
        var keys := cfg.projects[project].ssh.value.keys;
        for i := 0 to |keys|
          invariant forall m :: 0 <= m < i ==> !Points(keys[m], name)
        {
          if Points(keys[i], name) {
            found := found + {project};
            break;
          }
        }
      }
    }

    /** The filter loop of `profile remove --force`. */
    method FilterProfile(keys: seq<Key>, name: string) returns (filtered: seq<Key>)
      ensures filtered == Keep(keys, NotPointing(name))
    {
      filtered := [];
      for i := 0 to |keys|
        invariant filtered == Keep(keys[..i], NotPointing(name))
      {
        assert keys[..i + 1][..i] == keys[..i];
        if Points(keys[i], name) {
          continue;
        }
        filtered := filtered + [keys[i]];
      }
      assert keys[..|keys|] == keys;
    }

    method DetachReferrers(referrers: set<string>, name: string) returns (projects: map<string, Project>)
      requires referrers == Referrers(cfg, name)
      ensures projects == map p | p in cfg.projects && (p in referrers ==> HasOverrides(Detach(cfg.projects[p], name))) ::
                            if p in referrers then Detach(cfg.projects[p], name) else cfg.projects[p]
    {
      projects := cfg.projects;
      var rest := referrers;
      hide TrimSpace;
      hide HasOverrides;
      hide Refers;
      while rest != {}
        invariant rest <= referrers <= cfg.projects.Keys
        invariant forall p :: p in projects <==>
                    p in cfg.projects && (p in referrers - rest ==> HasOverrides(Detach(cfg.projects[p], name)))
        invariant forall p :: p in projects ==>
                    projects[p] == if p in referrers - rest then Detach(cfg.projects[p], name) else cfg.projects[p]
      {
        var project :| project in rest;
        rest := rest - {project};
        var filtered := FilterProfile(KeysOf(cfg.projects[project]), name);
        var p := WithKeys(cfg.projects[project], filtered);
        assert p == Detach(cfg.projects[project], name);
        hide Detach;
        if HasOverrides(p) {
          projects := projects[project := p];
        } else {
          projects := projects - {project};
        }
      }
    }

    method RunConfigSSHProfileRemove(cmd: Command) returns (r: Outcome)
      requires cmd.RemoveProfile?
      modifies this
      ensures Ended(cmd, r)
    {
      hide TrimSpace;
      hide Loadable;
      hide Referrers;
      hide Detach;
      hide HasOverrides;
      var name := TrimSpace(cmd.name);
      var loaded := LoadConfig();
      if !loaded || name !in cfg.profiles {
        return Refused;
      }
      var referrers := FindProfileReferrers(name);
      if referrers != {} && !cmd.force {
        return Refused;
      }
      var projects := DetachReferrers(referrers, name);
      r := SaveConfig(Config(cfg.profiles - {name}, projects));
    }

    method RetargetReferrers(referrers: set<string>, oldName: string, newName: string) returns (projects: map<string, Project>)
      requires referrers == Referrers(cfg, oldName) && oldName != ""
      ensures projects == map p | p in cfg.projects :: RetargetProject(cfg.projects[p], oldName, newName)
    {
      projects := cfg.projects;
      var rest := referrers;
      hide TrimSpace;
      while rest != {}
        invariant rest <= referrers <= cfg.projects.Keys
        invariant projects.Keys == cfg.projects.Keys
        invariant forall p :: p in projects && p in referrers - rest ==>
                    projects[p] == RetargetProject(cfg.projects[p], oldName, newName)
        invariant forall p :: p in projects && p !in referrers - rest ==> projects[p] == cfg.projects[p]
      {
        var project :| project in rest;
        rest := rest - {project};
        var p := cfg.projects[project];
        if p.ssh == None {
          continue;
        }
        var keys := p.ssh.value.keys;
        for i := 0 to |keys|
          invariant |keys| == |p.ssh.value.keys|
          invariant forall m :: 0 <= m < i ==> keys[m] == Retarget(p.ssh.value.keys[m], oldName, newName)
          invariant forall m :: i <= m < |keys| ==> keys[m] == p.ssh.value.keys[m]
        {
          if Points(keys[i], oldName) {
            keys := keys[i := keys[i].(profile := newName)];
          }
        }
        assert keys == Retargeted(p.ssh.value.keys, oldName, newName);
        projects := projects[project := p.(ssh := Some(p.ssh.value.(keys := keys)))];
      }
      forall p | p in cfg.projects && p !in referrers
        ensures RetargetProject(cfg.projects[p], oldName, newName) == cfg.projects[p]
      {
        UnreferredIsUntouched(cfg.projects[p], oldName, newName);
      }
    }

    method RunConfigSSHProfileRename(cmd: Command) returns (r: Outcome)
      requires cmd.RenameProfile?
      modifies this
      ensures Ended(cmd, r)
    {
      hide TrimSpace;
      hide Loadable;
      hide Referrers;
      hide RetargetProject;
      var oldName, newName := TrimSpace(cmd.oldName), TrimSpace(cmd.newName);
      if oldName == "" || newName == "" || oldName == newName || !ValidName(newName) {
        return Refused;
      }
      var loaded := LoadConfig();
      if !loaded || oldName !in cfg.profiles || newName in cfg.profiles {
        return Refused;
      }
      var profiles := (cfg.profiles - {oldName})[newName := cfg.profiles[oldName]];
      var referrers := FindProfileReferrers(oldName);
      var projects := RetargetReferrers(referrers, oldName, newName);
      r := SaveConfig(Config(profiles, projects));
    }
  }

  lemma UnreferredIsUntouched(p: Project, oldName: string, newName: string)
    requires !Refers(p, oldName)
    ensures RetargetProject(p, oldName, newName) == p
  {
    hide TrimSpace;
    if p.ssh.Some? {
      assert Retargeted(p.ssh.value.keys, oldName, newName) == p.ssh.value.keys;
    }
  }
}
