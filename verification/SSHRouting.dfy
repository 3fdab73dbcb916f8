/** Which key a session uses for a host, and how the profile commands change that. */
module SSHRouting {
  import opened Wrappers
  import opened Text
  import opened SSHProfiles
  import opened SSHProfileRules

  datatype SessionKey = SessionKey(name: string, identity: Identity, allowed: seq<string>)

  datatype Route = Refused | Unmanaged | Managed(keys: seq<SessionKey>)

  // ---- resolving a project's keys -----------------------------------------------------------------------------

  function Fold(env: Env, hosts: seq<string>): Option<seq<string>> {
    if hosts == [] then Some([])
    else
      var host := Clean(env, hosts[|hosts| - 1]);
      match Fold(env, hosts[..|hosts| - 1])
      case None => None
      case Some(folded) =>
        if host == "" || host in folded then Some(folded)
        else if !env.sessionHostPattern(host) then None
        else Some(folded + [host])
  }

  /** `normalizeGitSSHHosts`: None for a malformed host and for no host at all. */
  function SessionHosts(env: Env, hosts: seq<string>): Option<seq<string>> {
    match Fold(env, hosts)
    case None => None
    case Some(folded) => if folded == [] then None else Some(folded)
  }

  function WithKnownHosts(env: Env, privateKey: string, knownHosts: string): Option<Identity> {
    match env.canonical(privateKey)
    case None => None
    case Some(path) =>
      match env.canonical(if TrimSpace(knownHosts) == "" then env.besideKey(path) else knownHosts)
      case None => None
      case Some(hosts) => Some(Identity(path, hosts, false))
  }

  function ResolveIdentity(env: Env, key: Key, profiles: map<string, Profile>): Option<Identity> {
    var profile := TrimSpace(key.profile);
    if profile != "" then
      if profile !in profiles then None
      else WithKnownHosts(env, profiles[profile].privateKey, profiles[profile].knownHosts)
    else if TrimSpace(key.privateKey) != "" then WithKnownHosts(env, key.privateKey, key.knownHosts)
    else if TrimSpace(key.inventory) == "" then None
    else env.provisioned(TrimSpace(key.inventory))
  }

  /** A key without any host routes nothing. */
  function Allowed(env: Env, hosts: seq<string>): Option<seq<string>> {
    if hosts == [] then Some([]) else SessionHosts(env, hosts)
  }

  function ResolveEntry(env: Env, project: string, key: Key, profiles: map<string, Profile>): Option<SessionKey> {
    var name := if TrimSpace(key.name) == "" then "default" else TrimSpace(key.name);
    match ResolveIdentity(env, key, profiles)
    case None => None
    case Some(id) =>
      if !env.usable(project, id) then None
      else
        match Allowed(env, HostsOf(key, profiles))
        case None => None
        case Some(allowed) => Some(SessionKey(name, id, allowed))
  }

  function ResolveEntries(env: Env, project: string, keys: seq<Key>, profiles: map<string, Profile>): Option<seq<SessionKey>> {
    if keys == [] then Some([])
    else
      match ResolveEntries(env, project, keys[..|keys| - 1], profiles)
      case None => None
      case Some(resolved) =>
        match ResolveEntry(env, project, keys[|keys| - 1], profiles)
        case None => None
        case Some(key) => Some(resolved + [key])
  }

  function ResolveLegacy(env: Env, project: string, g: GitSSH): Route {
    match env.canonical(g.privateKey)
    case None => Refused
    case Some(privateKey) =>
      match env.canonical(g.knownHosts)
      case None => Refused
      case Some(knownHosts) =>
        var id := Identity(privateKey, knownHosts, false);
        match SessionHosts(env, g.allowedHosts)
        case None => Refused
        case Some(allowed) =>
          if env.usable(project, id) then Managed([SessionKey(privateKey, id, allowed)]) else Refused
  }

  function ResolveKeys(env: Env, project: string, c: SSH, profiles: map<string, Profile>): Route {
    if !FormOk(env, c) || !RefsOk(env, c, profiles) then Refused
    else if c.keys == [] then Unmanaged
    else
      match ResolveEntries(env, project, c.keys, profiles)
      case None => Refused
      case Some(keys) => Managed(keys)
  }

  /** `resolveManagedGitSSH`: keys first, then the legacy single key. */
  function Resolve(env: Env, cfg: Config, project: string): Route {
    var p := ProjectOf(cfg, project);
    if !Loadable(env, cfg) then Refused
    else if p.ssh.Some? then ResolveKeys(env, project, p.ssh.value, cfg.profiles)
    else if p.gitSSH.Some? then ResolveLegacy(env, project, p.gitSSH.value)
    else Unmanaged
  }

  // ---- selecting a key ----------------------------------------------------------------------------------------

  predicate Matches(env: Env, key: SessionKey, host: string) {
    exists p :: p in key.allowed && env.matches(p, Clean(env, host))
  }

  function Matching(env: Env, keys: seq<SessionKey>, host: string): seq<SessionKey> {
    if keys == [] then []
    else
      var last := keys[|keys| - 1];
      Matching(env, keys[..|keys| - 1], host) + if Matches(env, last, host) then [last] else []
  }

  /** Exactly one match, or none. */
  function Select(env: Env, keys: seq<SessionKey>, host: string): Option<SessionKey> {
    var matching := Matching(env, keys, host);
    if |matching| == 1 then Some(matching[0]) else None
  }

  predicate NamedOnce(keys: seq<SessionKey>) {
    forall i, j :: 0 <= i < j < |keys| ==> keys[i].name != keys[j].name
  }

  lemma {:induction false} MatchingHolds(env: Env, keys: seq<SessionKey>, host: string)
    ensures forall k :: k in Matching(env, keys, host) <==> k in keys && Matches(env, k, host)
  {
    hide Matches;
    if keys != [] {
      MatchingHolds(env, keys[..|keys| - 1], host);
      assert keys == keys[..|keys| - 1] + [keys[|keys| - 1]];
    }
  }

  lemma {:induction false} MatchingNamedOnce(env: Env, keys: seq<SessionKey>, host: string)
    requires NamedOnce(keys)
    ensures NamedOnce(Matching(env, keys, host))
  {
    hide Matches;
    if keys != [] {
      var rest, last := keys[..|keys| - 1], keys[|keys| - 1];
      MatchingNamedOnce(env, rest, host);
      MatchingHolds(env, rest, host);
      forall k | k in Matching(env, rest, host)
        ensures k.name != last.name
      {
        var i :| 0 <= i < |rest| && rest[i] == k;
        assert keys[i] == k;
      }
    }
  }

  /** The selected key is the only one that matches. */
  lemma SelectIsOnly(env: Env, keys: seq<SessionKey>, host: string, k: SessionKey)
    requires NamedOnce(keys)
    ensures Select(env, keys, host) == Some(k)
            <==> k in keys && Matches(env, k, host) && forall x :: x in keys && Matches(env, x, host) ==> x == k
  {
    var m := Matching(env, keys, host);
    MatchingHolds(env, keys, host);
    MatchingNamedOnce(env, keys, host);
    hide Matches;
    hide Matching;
    if |m| == 1 {
      assert m[0] in m;
    } else if k in m {
      var i :| 0 <= i < |m| && m[i] == k;
      var j := if i == 0 then 1 else 0;
      assert m[j] in m && m[j] != k;
    }
  }

  // ---- what the entries resolve to ----------------------------------------------------------------------------

  lemma {:induction false} EntriesHold(env: Env, project: string, keys: seq<Key>, profiles: map<string, Profile>)
    ensures ResolveEntries(env, project, keys, profiles).Some?
            <==> forall k :: k in keys ==> ResolveEntry(env, project, k, profiles).Some?
    ensures ResolveEntries(env, project, keys, profiles).Some? ==>
              var ks := ResolveEntries(env, project, keys, profiles).value;
              |ks| == |keys| && forall i :: 0 <= i < |keys| ==> Some(ks[i]) == ResolveEntry(env, project, keys[i], profiles)
  {
    hide ResolveEntry;
    if keys != [] {
      EntriesHold(env, project, keys[..|keys| - 1], profiles);
      assert keys == keys[..|keys| - 1] + [keys[|keys| - 1]];
    }
  }

  lemma EntryName(env: Env, project: string, key: Key, profiles: map<string, Profile>)
    requires KeyForm(env, key) && ResolveEntry(env, project, key, profiles).Some?
    ensures ResolveEntry(env, project, key, profiles).value.name == TrimSpace(key.name)
  {
    hide TrimSpace;
    hide ResolveIdentity;
    hide Allowed;
    hide Normalized;
  }

  lemma EntriesNamedOnce(env: Env, project: string, c: SSH, profiles: map<string, Profile>)
    requires FormOk(env, c) && ResolveEntries(env, project, c.keys, profiles).Some?
    ensures NamedOnce(ResolveEntries(env, project, c.keys, profiles).value)
  {
    EntriesHold(env, project, c.keys, profiles);
    var ks := ResolveEntries(env, project, c.keys, profiles).value;
    forall i, j | 0 <= i < j < |ks|
      ensures ks[i].name != ks[j].name
    {
      hide ResolveEntry;
      hide ResolveEntries;
      hide KeyForm;
      assert PairForm(env, c.keys[i], c.keys[j]);
      assert KeyForm(env, c.keys[i]) && KeyForm(env, c.keys[j]);
      EntryName(env, project, c.keys[i], profiles);
      EntryName(env, project, c.keys[j], profiles);
    }
  }

  lemma {:induction false} EntriesAlike(env: Env, project: string, keys: seq<Key>, a: map<string, Profile>,
                                        keys': seq<Key>, b: map<string, Profile>)
    requires |keys| == |keys'|
    requires forall i :: 0 <= i < |keys| ==> ResolveEntry(env, project, keys[i], a) == ResolveEntry(env, project, keys'[i], b)
    ensures ResolveEntries(env, project, keys, a) == ResolveEntries(env, project, keys', b)
  {
    hide ResolveEntry;
    if keys != [] {
      EntriesAlike(env, project, keys[..|keys| - 1], a, keys'[..|keys| - 1], b);
    }
  }

  // ---- rename -------------------------------------------------------------------------------------------------

  lemma RetargetedEntry(env: Env, project: string, key: Key, oldName: string, newName: string,
                        a: map<string, Profile>, b: map<string, Profile>)
    requires KeyRefs(env, key, a) && oldName in a && newName !in a && oldName != "" && newName != ""
    requires TrimSpace(newName) == newName && b == (a - {oldName})[newName := a[oldName]]
    ensures ResolveEntry(env, project, key, a) == ResolveEntry(env, project, Retarget(key, oldName, newName), b)
  {
    hide TrimSpace;
    hide Allowed;
    hide WithKnownHosts;
    hide Normalized;
  }

  /** Renaming a profile changes no session: every project resolves to the same keys, names, identities and hosts. */
  lemma RenameKeepsRoutes(env: Env, cfg: Config, oldArg: string, newArg: string, project: string)
    requires Loadable(env, cfg) && RunRenameProfile(cfg, oldArg, newArg).Some?
    ensures Resolve(env, RunRenameProfile(cfg, oldArg, newArg).value, project) == Resolve(env, cfg, project)
  {
    var after := RunRenameProfile(cfg, oldArg, newArg).value;
    var p, p' := ProjectOf(cfg, project), ProjectOf(after, project);
    RenameProfileLoadable(env, cfg, oldArg, newArg);
    RenamedProject(cfg, oldArg, newArg, project);
    hide RunRenameProfile;
    hide RetargetProject;
    hide TrimSpace;
    hide ProjectOf;
    hide ResolveKeys;
    hide ResolveLegacy;
    hide SSHOk;
    if p.ssh.Some? {
      LoadableProject(env, cfg, project);
      LoadableProject(env, after, project);
      RenamedKeys(env, cfg, oldArg, newArg, project);
    }
    hide Loadable;
  }

  lemma RenamedProject(cfg: Config, oldArg: string, newArg: string, project: string)
    requires RunRenameProfile(cfg, oldArg, newArg).Some?
    ensures var oldName, newName, after := TrimSpace(oldArg), TrimSpace(newArg), RunRenameProfile(cfg, oldArg, newArg).value;
            && oldName in cfg.profiles && newName !in cfg.profiles && oldName != "" && newName != ""
            && after.profiles == (cfg.profiles - {oldName})[newName := cfg.profiles[oldName]]
            && ProjectOf(after, project).gitSSH == ProjectOf(cfg, project).gitSSH
            && (ProjectOf(after, project).ssh.Some? <==> ProjectOf(cfg, project).ssh.Some?)
            && (ProjectOf(cfg, project).ssh.Some? ==>
                  ProjectOf(after, project).ssh.value.keys == Retargeted(ProjectOf(cfg, project).ssh.value.keys, oldName, newName))
  {
    hide TrimSpace;
    hide Retarget;
  }

  lemma RenamedKeys(env: Env, cfg: Config, oldArg: string, newArg: string, project: string)
    requires RunRenameProfile(cfg, oldArg, newArg).Some? && ProjectOf(cfg, project).ssh.Some?
    requires SSHOk(env, ProjectOf(cfg, project).ssh.value, cfg.profiles)
    requires var after := RunRenameProfile(cfg, oldArg, newArg).value;
             ProjectOf(after, project).ssh.Some? && SSHOk(env, ProjectOf(after, project).ssh.value, after.profiles)
    ensures var after := RunRenameProfile(cfg, oldArg, newArg).value;
            ResolveKeys(env, project, ProjectOf(after, project).ssh.value, after.profiles)
            == ResolveKeys(env, project, ProjectOf(cfg, project).ssh.value, cfg.profiles)
  {
    var oldName, newName := TrimSpace(oldArg), TrimSpace(newArg);
    var after := RunRenameProfile(cfg, oldArg, newArg).value;
    RenamedProject(cfg, oldArg, newArg, project);
    TrimTwice(newArg);
    hide RunRenameProfile;
    hide ProjectOf;
    hide TrimSpace;
    hide ResolveEntry;
    hide KeyForm;
    hide KeyRefs;
    var keys, keys' := ProjectOf(cfg, project).ssh.value.keys, ProjectOf(after, project).ssh.value.keys;
    forall i | 0 <= i < |keys|
      ensures ResolveEntry(env, project, keys[i], cfg.profiles) == ResolveEntry(env, project, keys'[i], after.profiles)
    {
      assert KeyRefs(env, keys[i], cfg.profiles);
      RetargetedEntry(env, project, keys[i], oldName, newName, cfg.profiles, after.profiles);
    }
    EntriesAlike(env, project, keys, cfg.profiles, keys', after.profiles);
    hide FormOk;
    hide RefsOk;
  }

  predicate AllTrimmed(cfg: Config, profile: string) {
    forall p, k :: p in cfg.projects && k in KeysOf(cfg.projects[p]) && Points(k, profile) ==> k.profile == profile
  }

  lemma RenameIs(cfg: Config, oldName: string, newName: string)
    requires TrimSpace(oldName) == oldName && TrimSpace(newName) == newName
    requires oldName != "" && ValidName(newName) && oldName != newName && oldName in cfg.profiles && newName !in cfg.profiles
    ensures RunRenameProfile(cfg, oldName, newName) ==
            Some(Config((cfg.profiles - {oldName})[newName := cfg.profiles[oldName]],
                        map p | p in cfg.projects :: RetargetProject(cfg.projects[p], oldName, newName)))
  {
  }

  lemma RetargetBack(p: Project, oldName: string, newName: string)
    requires TrimSpace(oldName) == oldName && TrimSpace(newName) == newName
    requires forall k :: k in KeysOf(p) ==> !Points(k, newName)
    ensures RetargetProject(RetargetProject(p, oldName, newName), newName, oldName) == p
            <==> forall k :: k in KeysOf(p) && Points(k, oldName) ==> k.profile == oldName
  {
    hide TrimSpace;
    if p.ssh.Some? {
      var keys := p.ssh.value.keys;
      var twice := Retargeted(Retargeted(keys, oldName, newName), newName, oldName);
      forall i | 0 <= i < |keys|
        ensures twice[i] == keys[i] <==> (Points(keys[i], oldName) ==> keys[i].profile == oldName)
      {
        assert keys[i] in keys;
      }
      if twice == keys {
        forall k | k in keys && Points(k, oldName)
          ensures k.profile == oldName
        {
          var i :| 0 <= i < |keys| && keys[i] == k;
          assert twice[i] == keys[i];
        }
      }
    }
  }

  /** Renaming there and back restores the configuration exactly when no reference was written with extra spaces. */
  lemma RenameBackIff(env: Env, cfg: Config, oldName: string, newName: string)
    requires Loadable(env, cfg) && TrimSpace(oldName) == oldName && TrimSpace(newName) == newName && ValidName(oldName)
    requires RunRenameProfile(cfg, oldName, newName).Some?
    ensures RunRenameProfile(RunRenameProfile(cfg, oldName, newName).value, newName, oldName) == Some(cfg)
            <==> AllTrimmed(cfg, oldName)
  {
    hide TrimSpace;
    RenameIs(cfg, oldName, newName);
    var once := RunRenameProfile(cfg, oldName, newName).value;
    assert newName != "" && newName in once.profiles && oldName !in once.profiles;
    RenameIs(once, newName, oldName);
    var twice := RunRenameProfile(once, newName, oldName).value;
    hide ValidName;
    assert twice.profiles == cfg.profiles;
    forall p | p in cfg.projects
      ensures twice.projects[p] == cfg.projects[p]
              <==> forall k :: k in KeysOf(cfg.projects[p]) && Points(k, oldName) ==> k.profile == oldName
    {
      assert forall k :: k in KeysOf(cfg.projects[p]) ==> !Points(k, newName) by {
        NoReference(env, cfg, p, newName);
      }
      RetargetBack(cfg.projects[p], oldName, newName);
    }
    hide RunRenameProfile;
    hide RetargetProject;
    hide Loadable;
    if AllTrimmed(cfg, oldName) {
      assert twice.projects == cfg.projects;
    }
  }

  /** In a loadable configuration nothing refers to an undefined profile. */
  lemma NoReference(env: Env, cfg: Config, project: string, profile: string)
    requires Loadable(env, cfg) && project in cfg.projects && profile !in cfg.profiles && profile != ""
    ensures forall k :: k in KeysOf(cfg.projects[project]) ==> !Points(k, profile)
  {
    hide TrimSpace;
    hide Normalized;
    forall k | k in KeysOf(cfg.projects[project])
      ensures !Points(k, profile)
    {
      assert SSHOk(env, cfg.projects[project].ssh.value, cfg.profiles);
      assert KeyRefs(env, k, cfg.profiles);
    }
  }

  // ---- declared hosts are unambiguous -------------------------------------------------------------------------

  lemma {:induction false} FoldHolds(env: Env, hosts: seq<string>)
    requires Fold(env, hosts).Some?
    ensures forall h :: h in Fold(env, hosts).value <==> h != "" && exists raw :: raw in hosts && Clean(env, raw) == h
  {
    hide Clean;
    if hosts != [] {
      var rest, last := hosts[..|hosts| - 1], hosts[|hosts| - 1];
      FoldHolds(env, rest);
      assert hosts == rest + [last];
      forall h
        ensures h in Fold(env, hosts).value <==> h != "" && exists raw :: raw in hosts && Clean(env, raw) == h
      {
        if h == Clean(env, last) {
          assert last in hosts;
        } else if raw :| raw in rest && Clean(env, raw) == h {
          assert raw in hosts;
        }
      }
    }
  }

  lemma {:induction false} FoldIff(env: Env, hosts: seq<string>)
    ensures Fold(env, hosts).Some? <==> forall h :: h in hosts && Clean(env, h) != "" ==> env.sessionHostPattern(Clean(env, h))
  {
    hide Clean;
    if hosts != [] {
      var rest, last := hosts[..|hosts| - 1], hosts[|hosts| - 1];
      FoldIff(env, rest);
      assert hosts == rest + [last];
      if Fold(env, rest).Some? && Clean(env, last) in Fold(env, rest).value {
        FoldHolds(env, rest);
      }
    }
  }

  /** Validation has its own host pattern. A host that it accepts and the session's pattern refuses, such as one with a
      wildcard, passes every check when the configuration is loaded and then refuses the project's every session. */
  lemma HostRefusedInSession(env: Env, cfg: Config, project: string, key: Key, host: string)
    requires ProjectOf(cfg, project).ssh.Some? && key in ProjectOf(cfg, project).ssh.value.keys
    requires host in HostsOf(key, cfg.profiles) && Clean(env, host) != "" && !env.sessionHostPattern(Clean(env, host))
    ensures Resolve(env, cfg, project) == Refused
  {
    var keys := ProjectOf(cfg, project).ssh.value.keys;
    FoldIff(env, HostsOf(key, cfg.profiles));
    assert ResolveEntry(env, project, key, cfg.profiles) == None;
    hide ResolveEntry;
    hide FormOk;
    hide RefsOk;
    hide Loadable;
    RefusedEntry(env, project, keys, cfg.profiles, key);
  }

  lemma {:induction false} RefusedEntry(env: Env, project: string, keys: seq<Key>, profiles: map<string, Profile>, key: Key)
    requires key in keys && ResolveEntry(env, project, key, profiles) == None
    ensures ResolveEntries(env, project, keys, profiles) == None
  {
    hide ResolveEntry;
    if key != keys[|keys| - 1] {
      assert keys == keys[..|keys| - 1] + [keys[|keys| - 1]];
      RefusedEntry(env, project, keys[..|keys| - 1], profiles, key);
    }
  }

  /** A session allows exactly the hosts that validation compared. */
  lemma AllowedAreEffective(env: Env, project: string, key: Key, profiles: map<string, Profile>)
    requires KeyOk(env, key, profiles) && ResolveEntry(env, project, key, profiles).Some?
    ensures forall h :: h in ResolveEntry(env, project, key, profiles).value.allowed
                        <==> h in Effective(env, key, profiles).value
    ensures forall h :: h in Effective(env, key, profiles).value ==> env.hostPattern(h)
  {
    var hosts := HostsOf(key, profiles);
    hide TrimSpace;
    assert Effective(env, key, profiles).value == if hosts == [] then {} else Normalized(env, hosts).value;
    if hosts != [] {
      FoldHolds(env, hosts);
      hide Clean;
      hide Fold;
      assert Effective(env, key, profiles) == Normalized(env, hosts);
    }
  }

  lemma NotOverlapping(env: Env, a: set<string>, b: set<string>, h: string, q: string)
    requires env.Sound() && !Overlap(env, a, b) && h in b && q in a && !Wild(h)
    requires env.hostPattern(q)
    ensures !env.matches(q, h)
  {
  }

  lemma OverlapSymmetric(env: Env, a: set<string>, b: set<string>)
    ensures Overlap(env, a, b) == Overlap(env, b, a)
  {
  }

  lemma OtherKeyDoesNotMatch(env: Env, project: string, a: Key, b: Key, profiles: map<string, Profile>, h: string, host: string)
    requires env.Sound() && KeyOk(env, a, profiles) && KeyOk(env, b, profiles)
    requires PairOk(env, a, b, profiles) || PairOk(env, b, a, profiles)
    requires ResolveEntry(env, project, a, profiles).Some?
    requires h in Effective(env, b, profiles).value && !Wild(h) && Clean(env, host) == h
    ensures !Matches(env, ResolveEntry(env, project, a, profiles).value, host)
  {
    AllowedAreEffective(env, project, a, profiles);
    var ea, eb := Effective(env, a, profiles).value, Effective(env, b, profiles).value;
    OverlapSymmetric(env, ea, eb);
    assert !Overlap(env, ea, eb);
    var k := ResolveEntry(env, project, a, profiles).value;
    hide ResolveEntry;
    hide Effective;
    hide KeyForm;
    hide KeyRefs;
    hide Clean;
    hide Overlap;
    forall q | q in k.allowed
      ensures !env.matches(q, h)
    {
      NotOverlapping(env, ea, eb, h, q);
    }
  }

  lemma OwnKeyMatches(env: Env, project: string, key: Key, profiles: map<string, Profile>, h: string, host: string)
    requires env.Sound() && KeyOk(env, key, profiles) && ResolveEntry(env, project, key, profiles).Some?
    requires h in Effective(env, key, profiles).value && !Wild(h) && Clean(env, host) == h
    ensures Matches(env, ResolveEntry(env, project, key, profiles).value, host)
  {
    AllowedAreEffective(env, project, key, profiles);
    hide ResolveEntry;
    hide Effective;
    hide KeyForm;
    hide KeyRefs;
  }

  lemma ResolvedKeys(env: Env, cfg: Config, project: string)
    requires Loadable(env, cfg) && Resolve(env, cfg, project).Managed?
    requires project in cfg.projects && cfg.projects[project].ssh.Some?
    ensures KeysOk(env, KeysOf(cfg.projects[project]), cfg.profiles)
    ensures ResolveEntries(env, project, KeysOf(cfg.projects[project]), cfg.profiles)
            == Some(Resolve(env, cfg, project).keys)
    ensures NamedOnce(Resolve(env, cfg, project).keys)
  {
    var c := cfg.projects[project].ssh.value;
    assert SSHOk(env, c, cfg.profiles);
    SSHOkIsKeysOk(env, c, cfg.profiles);
    hide KeysOk;
    hide RefsOk;
    hide Loadable;
    EntriesNamedOnce(env, project, c, cfg.profiles);
  }

  /** What the overlap checks at load time are for: a host written out in a key, or in the profile defaults it
      inherits, always selects that key. */
  lemma DeclaredHostSelectsItsKey(env: Env, cfg: Config, project: string, i: nat, host: string)
    requires env.Sound() && Loadable(env, cfg) && Resolve(env, cfg, project).Managed?
    requires project in cfg.projects && cfg.projects[project].ssh.Some? && i < |KeysOf(cfg.projects[project])|
    requires Effective(env, KeysOf(cfg.projects[project])[i], cfg.profiles).Some?
    requires Clean(env, host) in Effective(env, KeysOf(cfg.projects[project])[i], cfg.profiles).value
    requires !Wild(Clean(env, host))
    ensures |Resolve(env, cfg, project).keys| == |KeysOf(cfg.projects[project])|
    ensures Select(env, Resolve(env, cfg, project).keys, host) == Some(Resolve(env, cfg, project).keys[i])
  {
    ResolvedKeys(env, cfg, project);
    var keys, ks := KeysOf(cfg.projects[project]), Resolve(env, cfg, project).keys;
    EntriesHold(env, project, keys, cfg.profiles);
    hide Resolve;
    hide ResolveEntry;
    hide ResolveEntries;
    hide Effective;
    hide KeyOk;
    hide PairOk;
    hide Clean;
    hide Loadable;
    hide Matches;
    hide Select;
    assert keys[i] in keys;
    OwnKeyMatches(env, project, keys[i], cfg.profiles, Clean(env, host), host);
    forall x | x in ks && Matches(env, x, host)
      ensures x == ks[i]
    {
      var j :| 0 <= j < |ks| && ks[j] == x;
      if j != i {
        assert keys[j] in keys;
        assert if j < i then PairOk(env, keys[j], keys[i], cfg.profiles) else PairOk(env, keys[i], keys[j], cfg.profiles);
        OtherKeyDoesNotMatch(env, project, keys[j], keys[i], cfg.profiles, Clean(env, host), host);
      }
    }
    SelectIsOnly(env, ks, host, ks[i]);
  }

  // ---- removing a profile -------------------------------------------------------------------------------------

  lemma EntryElsewhere(env: Env, project: string, key: Key, a: map<string, Profile>, b: map<string, Profile>)
    requires SameFor(key, a, b)
    ensures ResolveEntry(env, project, key, a) == ResolveEntry(env, project, key, b)
  {
    hide TrimSpace;
    hide Allowed;
    hide WithKnownHosts;
  }

  lemma RoutesAlike(env: Env, project: string, c: SSH, a: map<string, Profile>, b: map<string, Profile>)
    requires SSHOk(env, c, a) && SSHOk(env, c, b)
    requires forall k :: k in c.keys ==> SameFor(k, a, b)
    ensures ResolveKeys(env, project, c, a) == ResolveKeys(env, project, c, b)
  {
    hide SameFor;
    hide ResolveEntry;
    forall i | 0 <= i < |c.keys|
      ensures ResolveEntry(env, project, c.keys[i], a) == ResolveEntry(env, project, c.keys[i], b)
    {
      EntryElsewhere(env, project, c.keys[i], a, b);
    }
    EntriesAlike(env, project, c.keys, a, c.keys, b);
  }

  lemma LoadableProject(env: Env, cfg: Config, project: string)
    requires Loadable(env, cfg) && ProjectOf(cfg, project).ssh.Some?
    ensures project in cfg.projects && SSHOk(env, ProjectOf(cfg, project).ssh.value, cfg.profiles)
    ensures ProjectOf(cfg, project) == cfg.projects[project]
  {
    hide SSHOk;
  }

  /** A project resolves alike under two configurations that agree on it and on the profiles it uses. */
  lemma ResolveAlike(env: Env, a: Config, b: Config, project: string)
    requires Loadable(env, a) && Loadable(env, b) && ProjectOf(a, project) == ProjectOf(b, project)
    requires forall k :: k in KeysOf(ProjectOf(a, project)) ==> SameFor(k, a.profiles, b.profiles)
    ensures Resolve(env, a, project) == Resolve(env, b, project)
  {
    var p := ProjectOf(a, project);
    if p.ssh.Some? {
      LoadableProject(env, a, project);
      LoadableProject(env, b, project);
      hide SSHOk;
      hide SameFor;
      hide ResolveKeys;
      hide ProjectOf;
      hide Loadable;
      RoutesAlike(env, project, p.ssh.value, a.profiles, b.profiles);
    } else {
      hide ResolveLegacy;
      hide ProjectOf;
      hide Loadable;
    }
  }

  lemma UnreferredStays(cfg: Config, nameArg: string, force: bool, project: string)
    requires RunRemoveProfile(cfg, nameArg, force).Some? && !Refers(ProjectOf(cfg, project), TrimSpace(nameArg))
    ensures ProjectOf(RunRemoveProfile(cfg, nameArg, force).value, project) == ProjectOf(cfg, project)
    ensures RunRemoveProfile(cfg, nameArg, force).value.profiles == cfg.profiles - {TrimSpace(nameArg)}
  {
    hide TrimSpace;
    hide Detach;
    hide HasOverrides;
  }

  /** Removing a profile, forced or not, leaves every project that does not use it on the same keys. */
  lemma RemoveKeepsOtherRoutes(env: Env, cfg: Config, nameArg: string, force: bool, project: string)
    requires Loadable(env, cfg) && RunRemoveProfile(cfg, nameArg, force).Some?
    requires !Refers(ProjectOf(cfg, project), TrimSpace(nameArg))
    ensures Resolve(env, RunRemoveProfile(cfg, nameArg, force).value, project) == Resolve(env, cfg, project)
  {
    var after := RunRemoveProfile(cfg, nameArg, force).value;
    RemoveProfileLoadable(env, cfg, nameArg, force);
    UnreferredStays(cfg, nameArg, force, project);
    hide RunRemoveProfile;
    hide Resolve;
    hide TrimSpace;
    hide Loadable;
    hide ProjectOf;
    ResolveAlike(env, cfg, after, project);
  }

  lemma UsedIffReferred(env: Env, cfg: Config, name: string)
    requires Loadable(env, cfg) && name in cfg.profiles
    ensures Referrers(cfg, name) == {} <==> forall p :: p in cfg.projects ==> !Refers(cfg.projects[p], name)
  {
    assert ProfileOk(env, name, cfg.profiles[name]);
    assert TrimSpace("") == "";
    hide TrimSpace;
    hide Refers;
    if p :| p in cfg.projects && Refers(cfg.projects[p], name) {
      assert p in Referrers(cfg, name);
    }
  }

  /** Without --force a profile in use is kept; an unused one can go without changing any session. */
  lemma UnforcedRemoval(env: Env, cfg: Config, nameArg: string, project: string)
    requires Loadable(env, cfg)
    ensures RunRemoveProfile(cfg, nameArg, false).Some?
            <==> TrimSpace(nameArg) in cfg.profiles
                 && forall p :: p in cfg.projects ==> !Refers(cfg.projects[p], TrimSpace(nameArg))
    ensures RunRemoveProfile(cfg, nameArg, false).Some? ==>
              Resolve(env, RunRemoveProfile(cfg, nameArg, false).value, project) == Resolve(env, cfg, project)
  {
    hide Loadable;
    hide Resolve;
    hide Refers;
    hide TrimSpace;
    if TrimSpace(nameArg) in cfg.profiles {
      UsedIffReferred(env, cfg, TrimSpace(nameArg));
      hide Referrers;
      if RunRemoveProfile(cfg, nameArg, false).Some? {
        assert !Refers(NOPROJECT, TrimSpace(nameArg)) by {
          NoProjectRefers(TrimSpace(nameArg));
        }
        RemoveKeepsOtherRoutes(env, cfg, nameArg, false, project);
      }
    }
  }

  lemma NoProjectRefers(name: string)
    ensures !Refers(NOPROJECT, name)
  {
  }

  lemma NewNameIsUnused(env: Env, key: Key, a: map<string, Profile>, name: string, profile: Profile)
    requires KeyRefs(env, key, a) && name !in a
    ensures SameFor(key, a, a[name := profile])
  {
    hide TrimSpace;
    hide Effective;
  }

  lemma AddProfileIs(env: Env, cfg: Config, cmd: Command) returns (profile: Profile)
    requires cmd.AddProfile? && RunAddProfile(env, cfg, cmd).Some?
    ensures TrimSpace(cmd.name) !in cfg.profiles
    ensures RunAddProfile(env, cfg, cmd).value == cfg.(profiles := cfg.profiles[TrimSpace(cmd.name) := profile])
  {
    hide TrimSpace;
    profile := NewProfile(env, cmd).value;
  }

  /** Adding a profile changes no session. */
  lemma AddProfileKeepsRoutes(env: Env, cfg: Config, cmd: Command, project: string)
    requires Loadable(env, cfg) && cmd.AddProfile? && RunAddProfile(env, cfg, cmd).Some?
    ensures Resolve(env, RunAddProfile(env, cfg, cmd).value, project) == Resolve(env, cfg, project)
  {
    AddProfileLoadable(env, cfg, cmd);
    var profile := AddProfileIs(env, cfg, cmd);
    hide RunAddProfile;
    hide TrimSpace;
    hide Effective;
    hide SameFor;
    hide Resolve;
    hide FormOk;
    forall k | k in KeysOf(ProjectOf(cfg, project))
      ensures SameFor(k, cfg.profiles, cfg.profiles[TrimSpace(cmd.name) := profile])
    {
      LoadableProject(env, cfg, project);
      NewNameIsUnused(env, k, cfg.profiles, TrimSpace(cmd.name), profile);
    }
    hide Loadable;
    ResolveAlike(env, cfg, RunAddProfile(env, cfg, cmd).value, project);
  }

  lemma {:induction false} KeptEntries(env: Env, project: string, keys: seq<Key>, f: Key -> bool, a: map<string, Profile>,
                                       b: map<string, Profile>)
    requires ResolveEntries(env, project, keys, a).Some?
    requires forall k :: k in keys && f(k) ==> ResolveEntry(env, project, k, a) == ResolveEntry(env, project, k, b)
    ensures ResolveEntries(env, project, Keep(keys, f), b).Some?
    ensures forall x :: x in ResolveEntries(env, project, Keep(keys, f), b).value
                        <==> exists k :: k in keys && f(k) && ResolveEntry(env, project, k, a) == Some(x)
  {
    KeepHolds(keys, f);
    EntriesHold(env, project, keys, a);
    var kept := Keep(keys, f);
    EntriesHold(env, project, kept, b);
    hide ResolveEntry;
    hide ResolveEntries;
    hide Keep;
    var ks := ResolveEntries(env, project, kept, b).value;
    forall x
      ensures x in ks <==> exists k :: k in keys && f(k) && ResolveEntry(env, project, k, a) == Some(x)
    {
      if x in ks {
        var i :| 0 <= i < |ks| && ks[i] == x;
        assert kept[i] in kept;
      }
    }
  }

  lemma DetachedProject(cfg: Config, nameArg: string, project: string)
    requires RunRemoveProfile(cfg, nameArg, true).Some? && TrimSpace(nameArg) != ""
    requires Refers(ProjectOf(cfg, project), TrimSpace(nameArg))
    ensures ProjectOf(RunRemoveProfile(cfg, nameArg, true).value, project).ssh
            == Detach(ProjectOf(cfg, project), TrimSpace(nameArg)).ssh
    ensures ProjectOf(RunRemoveProfile(cfg, nameArg, true).value, project).gitSSH == ProjectOf(cfg, project).gitSSH
    ensures RunRemoveProfile(cfg, nameArg, true).value.profiles == cfg.profiles - {TrimSpace(nameArg)}
  {
    hide TrimSpace;
    hide Keep;
    assert !Refers(NOPROJECT, TrimSpace(nameArg));
    assert project in Referrers(cfg, TrimSpace(nameArg));
  }

  /** What a project that used the profile is left with. */
  lemma ForcedRemoval(env: Env, cfg: Config, nameArg: string, project: string)
    requires Loadable(env, cfg) && RunRemoveProfile(cfg, nameArg, true).Some?
    requires Refers(ProjectOf(cfg, project), TrimSpace(nameArg))
    ensures var after := RunRemoveProfile(cfg, nameArg, true).value;
            var kept := Keep(KeysOf(ProjectOf(cfg, project)), NotPointing(TrimSpace(nameArg)));
            var g := ProjectOf(cfg, project).gitSSH;
            Resolve(env, after, project) ==
            if kept != [] then
              match ResolveEntries(env, project, kept, after.profiles)
              case None => Refused
              case Some(keys) => Managed(keys)
            else if g.Some? then ResolveLegacy(env, project, g.value)
            else Unmanaged
  {
    var after := RunRemoveProfile(cfg, nameArg, true).value;
    RemoveProfileLoadable(env, cfg, nameArg, true);
    NamesAreNotEmpty(env, cfg, nameArg);
    DetachedProject(cfg, nameArg, project);
    hide RunRemoveProfile;
    hide TrimSpace;
    hide ProjectOf;
    hide Keep;
    hide ResolveEntries;
    hide ResolveLegacy;
    var p := ProjectOf(after, project);
    if p.ssh.Some? {
      LoadableProject(env, after, project);
    }
    hide Loadable;
    hide FormOk;
    hide RefsOk;
  }

  lemma NamesAreNotEmpty(env: Env, cfg: Config, nameArg: string)
    requires Loadable(env, cfg) && TrimSpace(nameArg) in cfg.profiles
    ensures TrimSpace(nameArg) != ""
  {
    assert ProfileOk(env, TrimSpace(nameArg), cfg.profiles[TrimSpace(nameArg)]);
    assert TrimSpace("") == "";
  }

  lemma {:induction false} KeptNamedOnce(env: Env, c: SSH, name: string, project: string, a: map<string, Profile>,
                                         b: map<string, Profile>)
    requires SSHOk(env, c, a) && ResolveEntries(env, project, Keep(c.keys, NotPointing(name)), b).Some?
    ensures NamedOnce(ResolveEntries(env, project, Keep(c.keys, NotPointing(name)), b).value)
  {
    var kept := SSH("", "", "", Keep(c.keys, NotPointing(name)));
    KeptSSHOk(env, c, NotPointing(name), a);
    PlainSSHOk(env, kept.keys, a);
    hide KeysOk;
    hide FormOk;
    EntriesNamedOnce(env, project, kept, b);
  }

  /** --force detaches exactly the keys that use the profile. As long as the project keeps a key, a host served by
      another key still selects that key, and a host served by a detached key is refused. */
  lemma ForcedRemovalSelects(env: Env, cfg: Config, nameArg: string, project: string, i: nat, host: string)
    requires Loadable(env, cfg) && RunRemoveProfile(cfg, nameArg, true).Some?
    requires Resolve(env, cfg, project).Managed? && project in cfg.projects && cfg.projects[project].ssh.Some?
    requires Refers(cfg.projects[project], TrimSpace(nameArg))
    requires i < |KeysOf(cfg.projects[project])| == |Resolve(env, cfg, project).keys|
    requires Keep(KeysOf(cfg.projects[project]), NotPointing(TrimSpace(nameArg))) != []
    requires Select(env, Resolve(env, cfg, project).keys, host) == Some(Resolve(env, cfg, project).keys[i])
    ensures Resolve(env, RunRemoveProfile(cfg, nameArg, true).value, project).Managed?
    ensures Select(env, Resolve(env, RunRemoveProfile(cfg, nameArg, true).value, project).keys, host)
            == if Points(KeysOf(cfg.projects[project])[i], TrimSpace(nameArg)) then None
               else Some(Resolve(env, cfg, project).keys[i])
  {
    var name := TrimSpace(nameArg);
    var after := RunRemoveProfile(cfg, nameArg, true).value;
    var c := cfg.projects[project].ssh.value;
    var f := NotPointing(name);
    KeptRoute(env, cfg, nameArg, project);
    LoadableProject(env, cfg, project);
    ResolvedKeys(env, cfg, project);
    hide Loadable;
    hide Resolve;
    hide ResolveEntries;
    hide RunRemoveProfile;
    hide Select;
    hide FormOk;
    hide RefsOk;
    hide Keep;
    EntriesHold(env, project, c.keys, cfg.profiles);
    KeptAlike(env, project, c.keys, name, cfg.profiles);
    KeptEntries(env, project, c.keys, f, cfg.profiles, after.profiles);
    KeptNamedOnce(env, c, name, project, cfg.profiles, after.profiles);
    var ks, ks' := Resolve(env, cfg, project).keys, ResolveEntries(env, project, Keep(c.keys, f), after.profiles).value;
    hide *;
    SelectAmongKept(env, project, c.keys, ks, ks', name, cfg.profiles, i, host);
  }

  /** What a project that keeps a key resolves to after a forced removal. */
  lemma KeptRoute(env: Env, cfg: Config, nameArg: string, project: string)
    requires Loadable(env, cfg) && RunRemoveProfile(cfg, nameArg, true).Some?
    requires Resolve(env, cfg, project).Managed? && project in cfg.projects && cfg.projects[project].ssh.Some?
    requires Refers(cfg.projects[project], TrimSpace(nameArg))
    requires Keep(KeysOf(cfg.projects[project]), NotPointing(TrimSpace(nameArg))) != []
    ensures var after := RunRemoveProfile(cfg, nameArg, true).value;
            var kept := Keep(cfg.projects[project].ssh.value.keys, NotPointing(TrimSpace(nameArg)));
            && after.profiles == cfg.profiles - {TrimSpace(nameArg)}
            && ResolveEntries(env, project, kept, after.profiles).Some?
            && Resolve(env, after, project) == Managed(ResolveEntries(env, project, kept, after.profiles).value)
  {
    var name, keys, f := TrimSpace(nameArg), cfg.projects[project].ssh.value.keys, NotPointing(TrimSpace(nameArg));
    var after := RunRemoveProfile(cfg, nameArg, true).value;
    ResolvedKeys(env, cfg, project);
    ForcedRemoval(env, cfg, nameArg, project);
    ProfileGone(cfg, nameArg);
    hide RunRemoveProfile;
    hide Loadable;
    hide Resolve;
    hide ResolveEntries;
    hide ResolveEntry;
    hide Keep;
    hide Refers;
    KeptAlike(env, project, keys, name, cfg.profiles);
    KeptEntries(env, project, keys, f, cfg.profiles, after.profiles);
  }

  lemma ProfileGone(cfg: Config, nameArg: string)
    requires RunRemoveProfile(cfg, nameArg, true).Some?
    ensures RunRemoveProfile(cfg, nameArg, true).value.profiles == cfg.profiles - {TrimSpace(nameArg)}
  {
    hide TrimSpace;
  }

  lemma KeptAlike(env: Env, project: string, keys: seq<Key>, name: string, a: map<string, Profile>)
    ensures forall k :: k in keys && NotPointing(name)(k) ==>
              ResolveEntry(env, project, k, a) == ResolveEntry(env, project, k, a - {name})
  {
    hide TrimSpace;
    hide ResolveEntry;
    forall k | k in keys && NotPointing(name)(k)
      ensures ResolveEntry(env, project, k, a) == ResolveEntry(env, project, k, a - {name})
    {
      EntryElsewhere(env, project, k, a, a - {name});
    }
  }

  lemma SelectAmongKept(env: Env, project: string, keys: seq<Key>, ks: seq<SessionKey>, ks': seq<SessionKey>, name: string,
                        a: map<string, Profile>, i: nat, host: string)
    requires |keys| == |ks| && i < |keys| && NamedOnce(ks) && NamedOnce(ks')
    requires forall j :: 0 <= j < |keys| ==> Some(ks[j]) == ResolveEntry(env, project, keys[j], a)
    requires forall x :: x in ks' <==> exists k :: k in keys && NotPointing(name)(k) && ResolveEntry(env, project, k, a) == Some(x)
    requires Select(env, ks, host) == Some(ks[i])
    ensures Select(env, ks', host) == if Points(keys[i], name) then None else Some(ks[i])
  {
    hide ResolveEntry;
    hide Points;
    hide Matches;
    SelectIsOnly(env, ks, host, ks[i]);
    forall x | x in ks'
      ensures x in ks && (x == ks[i] ==> !Points(keys[i], name))
    {
      var k :| k in keys && NotPointing(name)(k) && ResolveEntry(env, project, k, a) == Some(x);
      var j :| 0 <= j < |keys| && keys[j] == k;
      assert ks[j] == x;
      if x == ks[i] {
        assert j == i;
      }
    }
    hide Select;
    if Points(keys[i], name) {
      NoMatch(env, ks', host);
    } else {
      assert keys[i] in keys && NotPointing(name)(keys[i]);
      SelectIsOnly(env, ks', host, ks[i]);
    }
  }

  lemma {:induction false} NoMatch(env: Env, keys: seq<SessionKey>, host: string)
    requires forall k :: k in keys ==> !Matches(env, k, host)
    ensures Matching(env, keys, host) == [] && Select(env, keys, host) == None
  {
    hide Matches;
    if keys != [] {
      NoMatch(env, keys[..|keys| - 1], host);
    }
  }

  // ---- adding and removing a key ------------------------------------------------------------------------------

  lemma AddKeyIs(env: Env, cfg: Config, cmd: Command) returns (key: Key)
    requires cmd.AddKey? && RunAddKey(env, cfg, cmd).Some?
    ensures key.name == TrimSpace(cmd.name) && key.name != ""
    ensures forall k :: k in KeysOf(ProjectOf(cfg, cmd.project)) ==> k.name != key.name
    ensures var p := ProjectOf(cfg, cmd.project);
            RunAddKey(env, cfg, cmd).value ==
            cfg.(projects := cfg.projects[cmd.project := p.(ssh := Some(SSH("", "", "", KeysOf(p) + [key])), gitSSH := None)])
  {
    hide TrimSpace;
    hide FormOk;
    hide RefsOk;
    key := NewKey(env, cfg, cmd).value;
  }

  lemma RemoveLast(env: Env, cfg: Config, project: string, name: string, keys: seq<Key>, key: Key)
    requires ProjectOf(cfg, project).ssh == Some(SSH("", "", "", keys + [key])) && key.name == TrimSpace(name) != ""
    requires forall k :: k in keys ==> k.name != key.name
    requires keys != [] ==> FormOk(env, SSH("", "", "", keys))
    ensures RunRemoveKey(env, cfg, project, name) ==
            Some(cfg.(projects := Put(cfg.projects, project, WithKeys(ProjectOf(cfg, project), keys))))
  {
    hide TrimSpace;
    hide FormOk;
    hide HasOverrides;
    AddedIsKept(keys, key);
    hide Keep;
    assert key in KeysOf(ProjectOf(cfg, project)) && NotNamed(TrimSpace(name)) == NotNamed(key.name);
  }

  /** Removing the key just added gives the project its keys back, and leaves every other project alone. */
  lemma AddThenRemove(env: Env, cfg: Config, cmd: Command)
    requires Loadable(env, cfg) && cmd.AddKey? && RunAddKey(env, cfg, cmd).Some?
    ensures RunRemoveKey(env, RunAddKey(env, cfg, cmd).value, cmd.project, cmd.name).Some?
    ensures var after := RunRemoveKey(env, RunAddKey(env, cfg, cmd).value, cmd.project, cmd.name).value;
            var before, restored := ProjectOf(cfg, cmd.project), ProjectOf(after, cmd.project);
            && KeysOf(restored) == KeysOf(before) && restored.gitSSH == None
            && restored.(ssh := None) == before.(ssh := None, gitSSH := None)
            && after.profiles == cfg.profiles
            && (forall p :: p != cmd.project ==> ProjectOf(after, p) == ProjectOf(cfg, p))
  {
    var key := AddKeyIs(env, cfg, cmd);
    var mid := RunAddKey(env, cfg, cmd).value;
    var keys := KeysOf(ProjectOf(cfg, cmd.project));
    hide RunAddKey;
    hide TrimSpace;
    hide FormOk;
    hide Points;
    if keys != [] {
      LoadableProject(env, cfg, cmd.project);
      PlainForm(env, ProjectOf(cfg, cmd.project).ssh.value);
    }
    hide Loadable;
    RemoveLast(env, mid, cmd.project, cmd.name, keys, key);
    PutBack(cfg, mid, cmd.project, keys);
    hide *;
  }

  lemma PutBack(cfg: Config, mid: Config, project: string, keys: seq<Key>)
    requires mid.profiles == cfg.profiles
    requires mid.projects == cfg.projects[project := ProjectOf(mid, project)]
    ensures var after := mid.(projects := Put(mid.projects, project, WithKeys(ProjectOf(mid, project), keys)));
            && KeysOf(ProjectOf(after, project)) == keys
            && ProjectOf(after, project).(ssh := None) == ProjectOf(mid, project).(ssh := None)
            && after.profiles == cfg.profiles
            && (forall p :: p != project ==> ProjectOf(after, p) == ProjectOf(cfg, p))
  {
  }

  lemma AddedIsKept(keys: seq<Key>, key: Key)
    requires forall k :: k in keys ==> k.name != key.name
    ensures Keep(keys + [key], NotNamed(key.name)) == keys
  {
    assert (keys + [key])[..|keys|] == keys;
    KeepAll(keys, NotNamed(key.name));
  }

  lemma PlainForm(env: Env, c: SSH)
    requires FormOk(env, c)
    ensures FormOk(env, SSH("", "", "", c.keys))
  {
    assert TrimSpace("") == "";
  }
}
