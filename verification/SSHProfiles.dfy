/** SSH profiles and project SSH keys: the configuration, and what a loaded configuration is checked for. */
module SSHProfiles {
  import opened Wrappers
  import opened Text

  datatype Profile = Profile(privateKey: string, knownHosts: string, defaultHosts: seq<string>, description: string)

  /** `inventory` names a provisioned key. */
  datatype Key = Key(name: string, profile: string, inventory: string, privateKey: string, knownHosts: string,
                     hosts: seq<string>)

  /** The three fields before `keys` are the retired single-key form. */
  datatype SSH = SSH(inventory: string, privateKey: string, knownHosts: string, keys: seq<Key>)

  datatype GitSSH = GitSSH(privateKey: string, knownHosts: string, allowedHosts: seq<string>)

  datatype Project = Project(docker: bool, readDirs: seq<string>, writeDirs: seq<string>, ssh: Option<SSH>,
                             gitSSH: Option<GitSSH>)

  datatype Config = Config(profiles: map<string, Profile>, projects: map<string, Project>)

  const NOPROJECT := Project(false, [], [], None, None)

  datatype Identity = Identity(privateKey: string, knownHosts: string, provisioned: bool)

  /** The foreign parts: case folding, the two host patterns, `filepath.Match`, and what is on disk. */
  datatype Env = Env(
    lower: string -> string,
    hostPattern: string -> bool,
    sessionHostPattern: string -> bool,
    matches: (string, string) -> bool,
    canonical: string -> Option<string>,
    besideKey: string -> string,
    provisioned: string -> Option<Identity>,
    keyArgument: string -> Option<Identity>,
    usable: (string, Identity) -> bool,
    confirms: (Project, string) -> bool)
  {
    /** A host without wildcard characters matches itself only. */
    ghost predicate Sound() {
      forall p, h :: hostPattern(p) && !Wild(p) ==> (matches(p, h) <==> p == h)
    }
  }

  predicate Wild(pattern: string) {
    '*' in pattern || '?' in pattern || '[' in pattern
  }

  predicate IsAlnum(c: char) {
    'a' <= c <= 'z' || 'A' <= c <= 'Z' || '0' <= c <= '9'
  }

  predicate ValidName(name: string) {
    && name != "" && IsAlnum(name[0])
    && forall i :: 0 <= i < |name| ==> IsAlnum(name[i]) || name[i] in {'.', '_', '-'}
  }

  // ---- hosts --------------------------------------------------------------------------------------------------

  function Clean(env: Env, host: string): string {
    env.lower(TrimSpace(host))
  }

  /** The set of hosts a list stands for; None when one is malformed. */
  function Normalized(env: Env, hosts: seq<string>): Option<set<string>> {
    if exists h :: h in hosts && Clean(env, h) != "" && !env.hostPattern(Clean(env, h)) then None
    else Some(set h | h in hosts && Clean(env, h) != "" :: Clean(env, h))
  }

  predicate WildcardOverlap(env: Env, pattern: string, hosts: set<string>) {
    Wild(pattern) && exists h :: h in hosts && env.matches(pattern, h)
  }

  predicate Overlap(env: Env, a: set<string>, b: set<string>) {
    || (exists h :: h in a && (h in b || WildcardOverlap(env, h, b)))
    || (exists h :: h in b && WildcardOverlap(env, h, a))
  }

  function HostsOf(key: Key, profiles: map<string, Profile>): seq<string> {
    if key.hosts != [] || TrimSpace(key.profile) == "" || TrimSpace(key.profile) !in profiles then key.hosts
    else profiles[TrimSpace(key.profile)].defaultHosts
  }

  /** The hosts a key routes once profile defaults are inherited. */
  function Effective(env: Env, key: Key, profiles: map<string, Profile>): Option<set<string>> {
    if key.hosts != [] then Normalized(env, key.hosts)
    else if TrimSpace(key.profile) == "" then Some({})
    else if TrimSpace(key.profile) !in profiles then None
    else Normalized(env, profiles[TrimSpace(key.profile)].defaultHosts)
  }

  // ---- validation ---------------------------------------------------------------------------------------------

  predicate OneSource(key: Key) {
    var p, i, k := TrimSpace(key.profile) != "", TrimSpace(key.inventory) != "", TrimSpace(key.privateKey) != "";
    (p && !i && !k) || (!p && i && !k) || (!p && !i && k)
  }

  predicate KeyForm(env: Env, key: Key) {
    && ValidName(TrimSpace(key.name)) && OneSource(key) && Normalized(env, key.hosts).Some?
    && (Normalized(env, key.hosts).value == {} ==> TrimSpace(key.profile) != "")
  }

  predicate KeyRefs(env: Env, key: Key, profiles: map<string, Profile>) {
    && (TrimSpace(key.profile) != "" ==> TrimSpace(key.profile) in profiles)
    && Effective(env, key, profiles).Some?
  }

  predicate PairForm(env: Env, a: Key, b: Key)
    requires KeyForm(env, a) && KeyForm(env, b)
  {
    && TrimSpace(a.name) != TrimSpace(b.name)
    && !Overlap(env, Normalized(env, a.hosts).value, Normalized(env, b.hosts).value)
  }

  predicate PairRefs(env: Env, a: Key, b: Key, profiles: map<string, Profile>)
    requires KeyRefs(env, a, profiles) && KeyRefs(env, b, profiles)
  {
    !Overlap(env, Effective(env, a, profiles).value, Effective(env, b, profiles).value)
  }

  predicate Flat(c: SSH) {
    c.keys == [] && (TrimSpace(c.privateKey) != "" || TrimSpace(c.inventory) != "" || TrimSpace(c.knownHosts) != "")
  }

  predicate FormOk(env: Env, c: SSH) {
    && (c.keys != [] ==> TrimSpace(c.privateKey) == "" && TrimSpace(c.inventory) == "")
    && (forall k :: k in c.keys ==> KeyForm(env, k))
    && forall i, j :: 0 <= i < j < |c.keys| ==> PairForm(env, c.keys[i], c.keys[j])
  }

  predicate RefsOk(env: Env, c: SSH, profiles: map<string, Profile>) {
    && (forall k :: k in c.keys ==> KeyRefs(env, k, profiles))
    && forall i, j :: 0 <= i < j < |c.keys| ==> PairRefs(env, c.keys[i], c.keys[j], profiles)
  }

  predicate ProfileOk(env: Env, name: string, profile: Profile) {
    ValidName(TrimSpace(name)) && TrimSpace(profile.privateKey) != "" && Normalized(env, profile.defaultHosts).Some?
  }

  predicate ProfilesOk(env: Env, profiles: map<string, Profile>) {
    forall n :: n in profiles ==> ProfileOk(env, n, profiles[n])
  }

  predicate SSHOk(env: Env, c: SSH, profiles: map<string, Profile>) {
    !Flat(c) && FormOk(env, c) && RefsOk(env, c, profiles)
  }

  predicate Loadable(env: Env, cfg: Config) {
    && ProfilesOk(env, cfg.profiles)
    && forall p :: p in cfg.projects && cfg.projects[p].ssh.Some? ==> SSHOk(env, cfg.projects[p].ssh.value, cfg.profiles)
  }

  // ---- the same, key by key -----------------------------------------------------------------------------------

  predicate KeyOk(env: Env, key: Key, profiles: map<string, Profile>) {
    KeyForm(env, key) && KeyRefs(env, key, profiles)
  }

  predicate PairOk(env: Env, a: Key, b: Key, profiles: map<string, Profile>)
    requires KeyOk(env, a, profiles) && KeyOk(env, b, profiles)
  {
    PairForm(env, a, b) && PairRefs(env, a, b, profiles)
  }

  predicate KeysOk(env: Env, keys: seq<Key>, profiles: map<string, Profile>) {
    && (forall k :: k in keys ==> KeyOk(env, k, profiles))
    && forall i, j :: 0 <= i < j < |keys| ==> PairOk(env, keys[i], keys[j], profiles)
  }

  lemma SSHOkIsKeysOk(env: Env, c: SSH, profiles: map<string, Profile>)
    ensures SSHOk(env, c, profiles) <==>
            && !Flat(c)
            && (c.keys != [] ==> TrimSpace(c.privateKey) == "" && TrimSpace(c.inventory) == "")
            && KeysOk(env, c.keys, profiles)
  {
    hide TrimSpace;
    hide Normalized;
    hide Overlap;
    hide ValidName;
  }

  function Keep(keys: seq<Key>, f: Key -> bool): seq<Key> {
    if keys == [] then []
    else
      var last := keys[|keys| - 1];
      Keep(keys[..|keys| - 1], f) + if f(last) then [last] else []
  }

  lemma {:induction false} KeepHolds(keys: seq<Key>, f: Key -> bool)
    ensures forall k :: k in Keep(keys, f) <==> k in keys && f(k)
  {
    if keys != [] {
      KeepHolds(keys[..|keys| - 1], f);
      assert keys == keys[..|keys| - 1] + [keys[|keys| - 1]];
    }
  }

  lemma {:induction false} KeepOk(env: Env, keys: seq<Key>, f: Key -> bool, profiles: map<string, Profile>)
    requires KeysOk(env, keys, profiles)
    ensures KeysOk(env, Keep(keys, f), profiles)
  {
    hide KeysOk;
    hide KeyOk;
    hide PairOk;
    if keys != [] {
      var rest, last := keys[..|keys| - 1], keys[|keys| - 1];
      KeysOkLast(env, keys, profiles);
      KeepOk(env, rest, f, profiles);
      KeepHolds(rest, f);
      if f(last) {
        forall k | k in Keep(rest, f)
          ensures KeyOk(env, k, profiles) && PairOk(env, k, last, profiles)
        {
          assert k in rest;
        }
        KeysOkAppend(env, Keep(rest, f), last, profiles);
      } else {
        assert Keep(rest, f) + [] == Keep(rest, f);
      }
    }
  }

  lemma KeysOkLast(env: Env, keys: seq<Key>, profiles: map<string, Profile>)
    requires KeysOk(env, keys, profiles) && keys != []
    ensures KeysOk(env, keys[..|keys| - 1], profiles) && KeyOk(env, keys[|keys| - 1], profiles)
    ensures forall k :: k in keys[..|keys| - 1] ==> KeyOk(env, k, profiles) && PairOk(env, k, keys[|keys| - 1], profiles)
  {
    hide KeyOk;
    hide PairOk;
    assert keys[|keys| - 1] in keys;
    forall k | k in keys[..|keys| - 1]
      ensures KeyOk(env, k, profiles) && PairOk(env, k, keys[|keys| - 1], profiles)
    {
      var i :| 0 <= i < |keys| - 1 && keys[i] == k;
    }
  }

  lemma KeysOkAppend(env: Env, keys: seq<Key>, last: Key, profiles: map<string, Profile>)
    requires KeysOk(env, keys, profiles) && KeyOk(env, last, profiles)
    requires forall k :: k in keys ==> KeyOk(env, k, profiles) && PairOk(env, k, last, profiles)
    ensures KeysOk(env, keys + [last], profiles)
  {
    hide KeyOk;
    hide PairOk;
  }

  lemma {:induction false} KeepAll(keys: seq<Key>, f: Key -> bool)
    requires forall k :: k in keys ==> f(k)
    ensures Keep(keys, f) == keys
  {
    if keys != [] {
      KeepAll(keys[..|keys| - 1], f);
      assert keys == keys[..|keys| - 1] + [keys[|keys| - 1]];
    }
  }
}
