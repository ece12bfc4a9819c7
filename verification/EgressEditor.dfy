/** The egress editor of a sandbox environment: the stored policy is shown with its credentials masked,
    the browser sends the editor state back, and the form cleans it, rebuilds the policy and restores the
    credentials left masked. */
module EgressEditor {
  import opened Common
  import opened Text

  datatype Intercept = All | Credentialed

  datatype Rule = Rule(host: string, methods: seq<string>, inject: Option<string>)

  datatype Policy = Policy(defaultAction: string, intercept: Intercept, rules: seq<Rule>)

  datatype Secret = Secret(header: string, value: string)

  /** `secrets` is None when the stored text cannot be decrypted. */
  datatype Stored = Stored(policy: Option<Policy>, secrets: Option<map<string, Secret>>)

  datatype Host = Host(
    host: string,
    methods: seq<string>,
    header: string,
    value: string,
    secretName: string,
    hasExisting: bool)

  datatype Editor = Editor(defaultAction: string, hosts: seq<Host>)

  datatype Fault =
    | BadDefault
    | BlankHost(i: nat)
    | BadHeader(i: nat)
    | BadValue(i: nat)
    | PermitsNothing
    | Undecryptable
    | Invalid

  const MASK := "******"
  const EMPTY := Editor("deny", [])
  const MAX_RULES := 100
  const MAX_SECRETS := 100
  const PLATFORM_SECRET := "__daiv_git_platform__"

  // ---------------------------------------------------------------- showing

  function ShownHost(r: Rule, secrets: map<string, Secret>): Host {
    Host(
      r.host,
      if r.methods == [] then ["*"] else r.methods,
      if r.inject.Some? && r.inject.value in secrets then secrets[r.inject.value].header else "",
      "",
      if r.inject.Some? then r.inject.value else "",
      r.inject.Some? && r.inject.value != "" && r.inject.value in secrets)
  }

  function Readable(s: Stored): map<string, Secret> {
    if s.secrets.Some? then s.secrets.value else map[]
  }

  function Shown(s: Stored): Editor {
    if s.policy.None? then EMPTY else
      var rules := s.policy.value.rules;
      Editor(s.policy.value.defaultAction,
             seq(|rules|, i requires 0 <= i < |rules| => ShownHost(rules[i], Readable(s))))
  }

  /** `_initial_egress_json` */
  method InitialEgress(s: Stored) returns (editor: Editor)
    ensures editor == Shown(s)
  {
    if s.policy.None? {
      return EMPTY;
    }
    var policy := s.policy.value;
    var secrets := Readable(s);
    var hosts: seq<Host> := [];
    for i := 0 to |policy.rules|
      invariant hosts == seq(i, j requires 0 <= j < i => ShownHost(policy.rules[j], secrets))
    {
      hosts := hosts + [ShownHost(policy.rules[i], secrets)];
    }
    return Editor(policy.defaultAction, hosts);
  }

  /** What is shown of the i-th rule: its host and methods, and of its credential the name and the header, never the
      value. A rule without methods is shown with all. */
  lemma ShownMeans(s: Stored, i: nat)
    requires s.policy.Some? && i < |s.policy.value.rules|
    ensures |Shown(s).hosts| == |s.policy.value.rules| && Shown(s).defaultAction == s.policy.value.defaultAction
    ensures var r, h := s.policy.value.rules[i], Shown(s).hosts[i];
            && h.host == r.host && h.value == "" && h.methods == (if r.methods == [] then ["*"] else r.methods)
            && h.secretName == (if r.inject == None then "" else r.inject.value)
            && (h.hasExisting <==> r.inject.Some? && r.inject.value != ""
                                   && s.secrets.Some? && r.inject.value in s.secrets.value)
            && h.header == if r.inject.Some? && s.secrets.Some? && r.inject.value in s.secrets.value
                           then s.secrets.value[r.inject.value].header else ""
  {
  }

  /** No credential value reaches the page: what is shown does not depend on any of them. */
  lemma ValuesAreHidden(a: Stored, b: Stored)
    requires a.policy == b.policy && Readable(a).Keys == Readable(b).Keys
    requires forall n | n in Readable(a) :: Readable(a)[n].header == Readable(b)[n].header
    ensures Shown(a) == Shown(b)
  {
    if a.policy.Some? {
      var rules := a.policy.value.rules;
      forall i | 0 <= i < |rules| ensures ShownHost(rules[i], Readable(a)) == ShownHost(rules[i], Readable(b)) {
      }
    }
  }

  // ---------------------------------------------------------------- cleaning

  function UpperChar(c: char): char {
    if 'a' <= c <= 'z' then c - 'a' + 'A' else c
  }

  /** `str.upper` on ASCII letters. */
  function Upper(s: string): string {
    seq(|s|, i requires 0 <= i < |s| => UpperChar(s[i]))
  }

  function Named(methods: seq<string>): seq<string> {
    if methods == [] then [] else
      (if Strip(methods[0]) != "" then [Upper(Strip(methods[0]))] else []) + Named(methods[1..])
  }

  function Methods(methods: seq<string>): seq<string> {
    if Named(methods) == [] then ["*"] else Named(methods)
  }

  predicate IsTokenChar(c: char) {
    '0' <= c <= '9' || 'A' <= c <= 'Z' || 'a' <= c <= 'z' || c in "!#$%&'*+-.^_`|~"
  }

  /** A header name: one or more token characters. */
  predicate IsToken(s: string) {
    s != "" && forall c | c in s :: IsTokenChar(c)
  }

  predicate HasBreak(s: string) {
    '\r' in s || '\n' in s
  }

  function CleanHost(h: Host, i: nat): Result<Host, Fault> {
    var host, header := Strip(h.host), Strip(h.header);
    if host == "" then Err(BlankHost(i))
    else if header != "" && !IsToken(header) then Err(BadHeader(i))
    else if header != "" && HasBreak(h.value) then Err(BadValue(i))
    else Ok(Host(host, Methods(h.methods), header, h.value, Strip(h.secretName), h.hasExisting))
  }

  /** The first n hosts cleaned, or the fault of the first that has one. */
  function CleanHosts(hosts: seq<Host>, n: nat): (r: Result<seq<Host>, Fault>)
    requires n <= |hosts|
    ensures r.Ok? ==> |r.value| == n && forall i | 0 <= i < n :: CleanHost(hosts[i], i) == Ok(r.value[i])
  {
    hide CleanHost;
    if n == 0 then Ok([]) else
      var before := CleanHosts(hosts, n - 1);
      if before.Err? then before else
        var h := CleanHost(hosts[n - 1], n - 1);
        if h.Err? then Err(h.error) else
          var all := before.value + [h.value];
          assert forall i | 0 <= i < n - 1 ::
              all[i] == before.value[i] && CleanHost(hosts[i], i) == Ok(before.value[i]);
          Ok(all)
  }

  function Clean(e: Editor): Result<Editor, Fault> {
    if e.defaultAction != "deny" && e.defaultAction != "allow" then Err(BadDefault) else
      var hosts := CleanHosts(e.hosts, |e.hosts|);
      if hosts.Err? then Err(hosts.error) else Ok(Editor(e.defaultAction, hosts.value))
  }

  lemma {:induction false} FaultStays(hosts: seq<Host>, n: nat, m: nat)
    requires n <= m <= |hosts| && CleanHosts(hosts, n).Err?
    ensures CleanHosts(hosts, m) == CleanHosts(hosts, n)
  {
    hide CleanHost;
    if n < m {
      FaultStays(hosts, n, m - 1);
    }
  }

  /** `clean_egress_json` */
  method CleanEgress(e: Editor) returns (r: Result<Editor, Fault>)
    ensures r == Clean(e)
  {
    hide CleanHost;
    if e.defaultAction != "deny" && e.defaultAction != "allow" {
      return Err(BadDefault);
    }
    var hosts: seq<Host> := [];
    for i := 0 to |e.hosts|
      invariant CleanHosts(e.hosts, i) == Ok(hosts)
    {
      var h := CleanHost(e.hosts[i], i);
      if h.Err? {
        FaultStays(e.hosts, i + 1, |e.hosts|);
        return Err(h.error);
      }
      hosts := hosts + [h.value];
    }
    return Ok(Editor(e.defaultAction, hosts));
  }

  // ---------------------------------------------------------------- building

  /** Names for new credentials: one for each host, none with white space. */
  predicate Mint(names: seq<string>, n: nat) {
    |names| == n && forall i | 0 <= i < n :: names[i] != "" && forall c | c in names[i] :: !IsSpace(c)
  }

  function NameFor(h: Host, minted: string): string {
    if h.secretName != "" then h.secretName else "s_" + minted
  }

  function BuiltRule(h: Host, minted: string): Rule {
    Rule(h.host, h.methods, if h.header != "" then Some(NameFor(h, minted)) else None)
  }

  function BuiltSecrets(hosts: seq<Host>, minted: seq<string>, n: nat): map<string, Secret>
    requires n <= |hosts| == |minted|
  {
    if n == 0 then map[] else
      var before := BuiltSecrets(hosts, minted, n - 1);
      var h := hosts[n - 1];
      if h.header == "" then before else before[NameFor(h, minted[n - 1]) := Secret(h.header, h.value)]
  }

  function BuiltRules(hosts: seq<Host>, minted: seq<string>): seq<Rule>
    requires |minted| == |hosts|
  {
    seq(|hosts|, i requires 0 <= i < |hosts| => BuiltRule(hosts[i], minted[i]))
  }

  function Built(e: Editor, minted: seq<string>): (Option<Policy>, map<string, Secret>)
    requires |minted| == |e.hosts|
  {
    if e.hosts == [] && e.defaultAction != "allow" then (None, map[]) else
      (Some(Policy(e.defaultAction, All, BuiltRules(e.hosts, minted))),
       BuiltSecrets(e.hosts, minted, |e.hosts|))
  }

  /** `_build_egress` */
  method BuildEgress(e: Editor, minted: seq<string>) returns (policy: Option<Policy>, secrets: map<string, Secret>)
    requires |minted| == |e.hosts|
    ensures (policy, secrets) == Built(e, minted)
  {
    var rules: seq<Rule> := [];
    secrets := map[];
    for i := 0 to |e.hosts|
      invariant rules == seq(i, j requires 0 <= j < i => BuiltRule(e.hosts[j], minted[j]))
      invariant secrets == BuiltSecrets(e.hosts, minted, i)
    {
      var h := e.hosts[i];
      var inject: Option<string> := None;
      if h.header != "" {
        var name := if h.secretName != "" then h.secretName else "s_" + minted[i];
        secrets := secrets[name := Secret(h.header, h.value)];
        inject := Some(name);
      }
      rules := rules + [Rule(h.host, h.methods, inject)];
    }
    assert rules == BuiltRules(e.hosts, minted);
    assert rules == [] <==> e.hosts == [];
    if rules == [] && e.defaultAction != "allow" {
      return None, map[];
    }
    policy := Some(Policy(e.defaultAction, All, rules));
  }

  // ---------------------------------------------------------------- restoring

  predicate Masked(value: string) {
    value == "" || value == MASK
  }

  function Restored(sec: Secret, name: string, existing: map<string, Secret>): Secret {
    if Masked(sec.value) && name in existing then sec.(value := existing[name].value) else sec
  }

  function Preserved(existing: map<string, Secret>, submitted: map<string, Secret>): map<string, Secret> {
    map name | name in submitted :: Restored(submitted[name], name, existing)
  }

  /** `_preserve_unchanged_egress_secrets` */
  method PreserveUnchanged(existing: Option<map<string, Secret>>, submitted: map<string, Secret>)
      returns (r: Result<map<string, Secret>, Fault>)
    ensures r == if existing.None? then Err(Undecryptable) else Ok(Preserved(existing.value, submitted))
    ensures r.Ok? ==> r.value.Keys == submitted.Keys && forall n | n in submitted ::
              && r.value[n].header == submitted[n].header
              && (submitted[n].value != "" && submitted[n].value != "******" ==> r.value[n].value == submitted[n].value)
              && (submitted[n].value == "" || submitted[n].value == "******" ==>
                    r.value[n].value == if n in existing.value then existing.value[n].value else submitted[n].value)
  {
    if existing.None? {
      return Err(Undecryptable);
    }
    var out: map<string, Secret> := map[];
    var todo := submitted.Keys;
    while todo != {}
      invariant todo <= submitted.Keys
      invariant out == map name | name in submitted && name !in todo :: Restored(submitted[name], name, existing.value)
      decreases |todo|
    {
      var name :| name in todo;
      var sec := submitted[name];
      if Masked(sec.value) && name in existing.value {
        out := out[name := sec.(value := existing.value[name].value)];
      } else {
        out := out[name := sec];
      }
      todo := todo - {name};
    }
    assert out == Preserved(existing.value, submitted);
    return Ok(out);
  }

  // ---------------------------------------------------------------- saving

  /** The model's own check of what is about to be stored. */
  predicate Valid(policy: Option<Policy>, secrets: map<string, Secret>) {
    policy.Some? ==>
      && |policy.value.rules| <= MAX_RULES && |secrets| <= MAX_SECRETS
      && (forall r | r in policy.value.rules ::
            && r.methods != [] && !HasBreak(r.host) && Strip(r.host) != ""
            && (r.inject.Some? ==> r.inject.value in secrets && r.inject.value != PLATFORM_SECRET))
      && (forall n | n in secrets ::
            !HasBreak(secrets[n].header) && Strip(secrets[n].header) != "" && !HasBreak(secrets[n].value))
      && PLATFORM_SECRET !in secrets
  }

  function Checked(policy: Option<Policy>, secrets: map<string, Secret>): Result<Stored, Fault> {
    if Valid(policy, secrets) then Ok(Stored(policy, Some(secrets))) else Err(Invalid)
  }

  /** Cleaning and saving an edited environment: `on` is the network choice, `existing` the secrets it holds. */
  function Saved(existing: Option<map<string, Secret>>, on: bool, e: Editor, minted: seq<string>): Result<Stored, Fault>
    requires |minted| == |e.hosts|
  {
    var clean := Clean(e);
    if clean.Err? then Err(clean.error) else
      CleanKeepsCount(e);
      var (policy, submitted) := if on then Built(clean.value, minted) else (None, map[]);
      if on && policy.None? then Err(PermitsNothing)
      else if existing.None? then Err(Undecryptable)
      else Checked(policy, Preserved(existing.value, submitted))
  }

  lemma CleanKeepsCount(e: Editor)
    ensures Clean(e).Ok? ==> |Clean(e).value.hosts| == |e.hosts|
  {
  }

  method Save(existing: Option<map<string, Secret>>, on: bool, e: Editor, minted: seq<string>)
      returns (r: Result<Stored, Fault>)
    requires |minted| == |e.hosts|
    ensures r == Saved(existing, on, e, minted)
  {
    hide Clean, Built, Preserved, Valid;
    CleanKeepsCount(e);
    var clean := CleanEgress(e);
    if clean.Err? {
      return Err(clean.error);
    }
    var policy: Option<Policy>, submitted: map<string, Secret> := None, map[];
    if on {
      policy, submitted := BuildEgress(clean.value, minted);
      if policy.None? {
        return Err(PermitsNothing);
      }
    }
    var secrets := PreserveUnchanged(existing, submitted);
    if secrets.Err? {
      return Err(secrets.error);
    }
    return Checked(policy, secrets.value);
  }

  // ---------------------------------------------------------------- what the form stores

  predicate NormalRule(r: Rule, secrets: map<string, Secret>) {
    && r.host != "" && Strip(r.host) == r.host
    && Methods(r.methods) == r.methods
    && (r.inject.Some? ==>
          var n := r.inject.value;
          n != "" && Strip(n) == n && n in secrets && IsToken(secrets[n].header))
  }

  predicate Injects(rules: seq<Rule>, n: string) {
    exists i | 0 <= i < |rules| :: rules[i].inject == Some(n)
  }

  /** The states the editor can represent: tidy rules whose credentials all exist, no credential without a
      rule, every host intercepted, and something permitted. */
  predicate Normal(s: Stored) {
    && s.secrets.Some?
    && match s.policy
       case None => s.secrets.value == map[]
       case Some(p) =>
         && p.defaultAction in ["deny", "allow"] && p.intercept.All?
         && (p.rules != [] || p.defaultAction == "allow")
         && (forall i | 0 <= i < |p.rules| :: NormalRule(p.rules[i], s.secrets.value))
         && (forall n | n in s.secrets.value :: Injects(p.rules, n))
  }

  lemma NoSpaceEnds(s: string)
    requires s != "" && !IsSpace(s[0]) && !IsSpace(s[|s| - 1])
    ensures Strip(s) == s
  {
  }

  lemma UpperIsClean(m: string)
    requires Strip(m) != ""
    ensures var u := Upper(Strip(m)); u != "" && Strip(u) == u && Upper(u) == u
  {
    var s := Strip(m);
    var u := Upper(s);
    var i, j := StripMeans(m);
    NoSpaceEnds(u);
    assert forall i | 0 <= i < |u| :: Upper(u)[i] == u[i];
  }

  lemma {:induction false} NamedTwice(methods: seq<string>)
    ensures Named(Named(methods)) == Named(methods)
  {
    hide Strip, Upper;
    if methods != [] {
      NamedTwice(methods[1..]);
      if Strip(methods[0]) != "" {
        UpperIsClean(methods[0]);
        assert Named(methods)[1..] == Named(methods[1..]);
      } else {
        assert Named(methods) == Named(methods[1..]);
      }
    }
  }

  lemma MethodsTwice(methods: seq<string>)
    ensures Methods(Methods(methods)) == Methods(methods)
  {
    NamedTwice(methods);
    if Named(methods) == [] {
      NoSpaceEnds("*");
      assert Upper("*") == "*";
      assert Named(["*"]) == ["*"] + Named([]);
    }
  }

  lemma TokenIsStripped(s: string)
    requires IsToken(s)
    ensures Strip(s) == s
  {
    assert s[0] in s && s[|s| - 1] in s;
    NoSpaceEnds(s);
  }

  lemma MintedIsStripped(minted: string)
    requires minted != "" && forall c | c in minted :: !IsSpace(c)
    ensures Strip("s_" + minted) == "s_" + minted
  {
    var s := "s_" + minted;
    assert s[|s| - 1] == minted[|minted| - 1] && minted[|minted| - 1] in minted;
    NoSpaceEnds(s);
  }

  /** The secret built for a rule is there, with the header of some cleaned host. */
  lemma {:induction false} BuiltSecretsMean(hosts: seq<Host>, minted: seq<string>, n: nat)
    requires n <= |hosts| == |minted|
    ensures forall i | 0 <= i < n && hosts[i].header != "" ::
              NameFor(hosts[i], minted[i]) in BuiltSecrets(hosts, minted, n)
    ensures forall name | name in BuiltSecrets(hosts, minted, n) ::
              exists i | 0 <= i < n :: hosts[i].header != "" && NameFor(hosts[i], minted[i]) == name
                && BuiltSecrets(hosts, minted, n)[name] == Secret(hosts[i].header, hosts[i].value)
  {
    hide NameFor;
    if n > 0 {
      BuiltSecretsMean(hosts, minted, n - 1);
    }
  }

  lemma CleanHostMeans(h: Host, i: nat)
    requires CleanHost(h, i).Ok?
    ensures Tidy(CleanHost(h, i).value)
  {
    hide Strip, Methods;
    StripTwice(h.host);
    StripTwice(h.secretName);
    MethodsTwice(h.methods);
  }

  /** Whatever was submitted, over whatever was stored before: what the form stores is normal. */
  lemma FormOutputIsNormal(existing: Option<map<string, Secret>>, on: bool, e: Editor, minted: seq<string>)
    requires Mint(minted, |e.hosts|) && Saved(existing, on, e, minted).Ok?
    ensures Normal(Saved(existing, on, e, minted).value)
  {
    hide Strip, Methods, Valid, IsToken, CleanHosts, BuiltSecrets;
    if on {
      var c := Clean(e).value;
      OutputIsNormal(c, minted, existing.value) by {
        forall i | 0 <= i < |c.hosts| ensures Tidy(c.hosts[i]) {
          CleanHostMeans(e.hosts[i], i);
        }
      }
    }
  }

  /** A host as cleaning leaves it. */
  predicate Tidy(c: Host) {
    && c.host != "" && Strip(c.host) == c.host && Methods(c.methods) == c.methods
    && (c.header != "" ==> IsToken(c.header)) && Strip(c.secretName) == c.secretName
  }

  lemma OutputIsNormal(c: Editor, minted: seq<string>, existing: map<string, Secret>)
    requires Mint(minted, |c.hosts|) && forall i | 0 <= i < |c.hosts| :: Tidy(c.hosts[i])
    requires c.defaultAction in ["deny", "allow"] && Built(c, minted).0.Some?
    ensures Normal(Stored(Built(c, minted).0, Some(Preserved(existing, Built(c, minted).1))))
  {
    hide Strip, Methods, IsToken, BuiltSecrets, NormalRule, Tidy;
    var rules, built := BuiltRules(c.hosts, minted), BuiltSecrets(c.hosts, minted, |c.hosts|);
    var secrets := Preserved(existing, built);
    BuiltSecretsMean(c.hosts, minted, |c.hosts|);
    forall i | 0 <= i < |rules| ensures NormalRule(rules[i], secrets) {
      RuleIsNormal(c.hosts, minted, i, built, secrets);
    }
    forall name | name in secrets ensures Injects(rules, name) {
      var i :| 0 <= i < |c.hosts| && c.hosts[i].header != "" && NameFor(c.hosts[i], minted[i]) == name;
      assert rules[i].inject == Some(name);
    }
  }

  lemma RuleIsNormal(hosts: seq<Host>, minted: seq<string>, i: nat, built: map<string, Secret>,
                     secrets: map<string, Secret>)
    requires Mint(minted, |hosts|) && i < |hosts| && forall j | 0 <= j < |hosts| :: Tidy(hosts[j])
    requires built == BuiltSecrets(hosts, minted, |hosts|)
    requires secrets.Keys == built.Keys && forall n | n in built :: secrets[n].header == built[n].header
    ensures NormalRule(BuiltRule(hosts[i], minted[i]), secrets)
  {
    hide Strip, Methods, IsToken, BuiltSecrets;
    MintedIsStripped(minted[i]);
    BuiltSecretsMean(hosts, minted, |hosts|);
    if hosts[i].header != "" {
      var name := NameFor(hosts[i], minted[i]);
      var j :| 0 <= j < |hosts| && hosts[j].header != "" && NameFor(hosts[j], minted[j]) == name
        && built[name] == Secret(hosts[j].header, hosts[j].value);
      assert Tidy(hosts[i]) && Tidy(hosts[j]);
    }
  }

  predicate HasCredential(h: Host) {
    Strip(h.header) != ""
  }

  /** The name a submitted credential is stored under. */
  function CredentialName(h: Host, minted: string): string {
    if Strip(h.secretName) != "" then Strip(h.secretName) else "s_" + minted
  }

  /** No later host has a credential of the same name. */
  predicate IsLastOf(hosts: seq<Host>, minted: seq<string>, i: nat)
    requires i < |hosts| == |minted|
  {
    forall j | i < j < |hosts| && HasCredential(hosts[j]) ::
      CredentialName(hosts[j], minted[j]) != CredentialName(hosts[i], minted[i])
  }

  /** A save stores, for the i-th host submitted, its rule, and for the last host with a credential name that
      credential: the typed value, or the stored one if the value was left masked and there is one. */
  lemma SaveMeans(existing: map<string, Secret>, e: Editor, minted: seq<string>, i: nat)
    requires |minted| == |e.hosts| && Saved(Some(existing), true, e, minted).Ok? && i < |e.hosts|
    ensures var s := Saved(Some(existing), true, e, minted).value;
            var h, name := e.hosts[i], CredentialName(e.hosts[i], minted[i]);
            && s.policy.value.defaultAction == e.defaultAction && s.policy.value.intercept == All
            && |s.policy.value.rules| == |e.hosts|
            && s.policy.value.rules[i] ==
                 Rule(Strip(h.host), Methods(h.methods), if HasCredential(h) then Some(name) else None)
            && (HasCredential(h) && IsLastOf(e.hosts, minted, i) ==>
                  && name in s.secrets.value
                  && s.secrets.value[name].header == Strip(h.header)
                  && (h.value != "" && h.value != "******" ==> s.secrets.value[name].value == h.value)
                  && (h.value == "" || h.value == "******" ==>
                        s.secrets.value[name].value == if name in existing then existing[name].value else h.value))
  {
    hide Strip, Methods, IsToken, Valid, BuiltSecrets;
    var c := Clean(e).value;
    forall j | 0 <= j < |e.hosts|
      ensures CleanHost(e.hosts[j], j) == Ok(c.hosts[j])
      ensures (c.hosts[j].header != "") == HasCredential(e.hosts[j])
      ensures NameFor(c.hosts[j], minted[j]) == CredentialName(e.hosts[j], minted[j])
    {
    }
    if HasCredential(e.hosts[i]) && IsLastOf(e.hosts, minted, i) {
      LastOfItsName(c.hosts, minted, i, |c.hosts|);
    }
  }

  lemma {:induction false} LastOfItsName(hosts: seq<Host>, minted: seq<string>, i: nat, n: nat)
    requires i < n <= |hosts| == |minted| && hosts[i].header != ""
    requires forall j | i < j < n && hosts[j].header != "" ::
               NameFor(hosts[j], minted[j]) != NameFor(hosts[i], minted[i])
    ensures var name := NameFor(hosts[i], minted[i]);
            name in BuiltSecrets(hosts, minted, n)
            && BuiltSecrets(hosts, minted, n)[name] == Secret(hosts[i].header, hosts[i].value)
  {
    hide NameFor;
    if i < n - 1 {
      LastOfItsName(hosts, minted, i, n - 1);
    }
  }

  lemma {:induction false} NamedConcat(a: seq<string>, b: seq<string>)
    ensures Named(a + b) == Named(a) + Named(b)
  {
    hide Strip, Upper;
    if a == [] {
      assert a + b == b;
    } else {
      assert (a + b)[1..] == a[1..] + b;
      NamedConcat(a[1..], b);
    }
  }

  /** The methods that are not blank are kept in order, stripped and in capitals; if there are none, all methods. */
  lemma MethodsMean(a: seq<string>, m: string, b: seq<string>)
    ensures Named(a + [m] + b) == Named(a) + (if AllSpace(m) then [] else [Upper(Strip(m))]) + Named(b)
    ensures Methods(a) == if Named(a) == [] then ["*"] else Named(a)
  {
    hide Strip, Upper, AllSpace;
    BlankIsStripped(m);
    NamedConcat(a, [m]);
    NamedConcat(a + [m], b);
    assert [m][1..] == [];
  }

  lemma UpperMeans(s: string)
    ensures |Upper(s)| == |s|
    ensures forall i | 0 <= i < |s| ::
              Upper(s)[i] as int == s[i] as int - if 97 <= s[i] as int <= 122 then 32 else 0
  {
  }

  /** A host that cleaning accepts. */
  predicate Fit(h: Host) {
    && !AllSpace(h.host)
    && (AllSpace(h.header) || (IsToken(Strip(h.header)) && '\r' !in h.value && '\n' !in h.value))
  }

  lemma FitIsClean(h: Host, i: nat)
    ensures CleanHost(h, i).Ok? <==> Fit(h)
    ensures AllSpace(h.host) ==> CleanHost(h, i) == Err(BlankHost(i))
    ensures !AllSpace(h.host) && !AllSpace(h.header) && !IsToken(Strip(h.header)) ==>
              CleanHost(h, i) == Err(BadHeader(i))
    ensures !Fit(h) && !AllSpace(h.host) && IsToken(Strip(h.header)) ==> CleanHost(h, i) == Err(BadValue(i))
  {
    hide Strip, AllSpace, IsToken, Methods;
    BlankIsStripped(h.host);
    BlankIsStripped(h.header);
  }

  lemma {:induction false} FitAreClean(hosts: seq<Host>, n: nat)
    requires n <= |hosts| && forall i | 0 <= i < n :: Fit(hosts[i])
    ensures CleanHosts(hosts, n).Ok?
  {
    hide CleanHost, Fit;
    if n > 0 {
      FitAreClean(hosts, n - 1);
      FitIsClean(hosts[n - 1], n - 1);
    }
  }

  /** A save reports the first host that is not fit: a blank one, one whose header is no header name, or one whose
      value breaks the line. */
  lemma FirstFault(existing: Option<map<string, Secret>>, on: bool, e: Editor, minted: seq<string>, i: nat)
    requires |minted| == |e.hosts| && e.defaultAction in ["deny", "allow"]
    requires i < |e.hosts| && !Fit(e.hosts[i]) && forall j | 0 <= j < i :: Fit(e.hosts[j])
    ensures Saved(existing, on, e, minted) ==
            Err(if AllSpace(e.hosts[i].host) then BlankHost(i)
                else if !IsToken(Strip(e.hosts[i].header)) then BadHeader(i) else BadValue(i))
  {
    hide Fit, CleanHost, AllSpace, IsToken, Strip, Built, Preserved, Valid;
    FitAreClean(e.hosts, i);
    FitIsClean(e.hosts[i], i);
    BadHeaderIsSome(e.hosts[i]);
    FaultStays(e.hosts, i + 1, |e.hosts|);
  }

  lemma BadHeaderIsSome(h: Host)
    ensures !Fit(h) && !AllSpace(h.host) ==> !AllSpace(h.header)
  {
  }

  /** What can be stored: at most a hundred rules and credentials, no line break in a host, a header or a value, and
      every credential a rule names among them, none by the platform's own name. */
  lemma SavedIsWithinLimits(existing: Option<map<string, Secret>>, on: bool, e: Editor, minted: seq<string>)
    requires |minted| == |e.hosts| && Saved(existing, on, e, minted).Ok?
    ensures var s := Saved(existing, on, e, minted).value;
            && (s.policy.Some? <==> on) && s.secrets.Some?
            && (!on ==> s.secrets.value == map[])
            && (on ==> |s.policy.value.rules| <= 100 && |s.secrets.value| <= 100)
            && (on ==> e.defaultAction in ["deny", "allow"])
            && (on ==> e.hosts != [] || e.defaultAction == "allow")
            && (on ==> forall r | r in s.policy.value.rules :: '\r' !in r.host && '\n' !in r.host && r.methods != []
                         && (r.inject.Some? ==> r.inject.value in s.secrets.value))
            && (on ==> forall n | n in s.secrets.value ::
                         && n != "__daiv_git_platform__"
                         && '\r' !in s.secrets.value[n].header && '\n' !in s.secrets.value[n].header
                         && '\r' !in s.secrets.value[n].value && '\n' !in s.secrets.value[n].value)
  {
    hide CleanHosts, BuiltSecrets, BuiltRules, Strip;
    CleanKeepsCount(e);
  }

  /** A save of fit hosts fails only where nothing would be permitted, the stored credentials cannot be read, or the
      model's check refuses. */
  lemma FitIsSaved(existing: Option<map<string, Secret>>, on: bool, e: Editor, minted: seq<string>)
    requires |minted| == |e.hosts| && e.defaultAction in ["deny", "allow"] && forall h | h in e.hosts :: Fit(h)
    ensures var r := Saved(existing, on, e, minted);
            if on && e.hosts == [] && e.defaultAction == "deny" then r == Err(PermitsNothing)
            else if existing == None then r == Err(Undecryptable)
            else r.Ok? || r == Err(Invalid)
    ensures existing.Some? && !on ==> Saved(existing, on, e, minted) == Ok(Stored(None, Some(map[])))
  {
    hide Fit, CleanHost, BuiltSecrets, BuiltRules;
    FitAreClean(e.hosts, |e.hosts|);
    CleanKeepsCount(e);
  }

  // ---------------------------------------------------------------- the round trip

  lemma ShownIsClean(r: Rule, secrets: map<string, Secret>, i: nat)
    requires NormalRule(r, secrets)
    ensures CleanHost(ShownHost(r, secrets), i) == Ok(ShownHost(r, secrets))
  {
    hide Strip, Methods, IsToken;
    assert Methods(r.methods) != [] by { MethodsAreSome(r.methods); }
    EmptyStrips();
    if r.inject.Some? {
      TokenIsStripped(secrets[r.inject.value].header);
    }
  }

  lemma MethodsAreSome(methods: seq<string>)
    ensures Methods(methods) != []
  {
  }

  lemma EmptyStrips()
    ensures Strip("") == ""
  {
  }

  lemma {:induction false} ShownIsAllClean(rules: seq<Rule>, secrets: map<string, Secret>, hosts: seq<Host>, n: nat)
    requires n <= |rules| == |hosts|
    requires forall i | 0 <= i < |rules| :: NormalRule(rules[i], secrets) && hosts[i] == ShownHost(rules[i], secrets)
    ensures CleanHosts(hosts, n) == Ok(hosts[..n])
  {
    hide CleanHost, NormalRule, ShownHost;
    if n > 0 {
      ShownIsAllClean(rules, secrets, hosts, n - 1);
      ShownIsClean(rules[n - 1], secrets, n - 1);
      assert hosts[..n] == hosts[..n - 1] + [hosts[n - 1]];
    }
  }

  /** Rebuilding what is shown gives back the rule. */
  lemma ShownRebuilds(r: Rule, secrets: map<string, Secret>, minted: string)
    requires NormalRule(r, secrets)
    ensures BuiltRule(ShownHost(r, secrets), minted) == r
  {
    hide Strip, IsToken;
    MethodsAreSome(r.methods);
    if r.inject.Some? {
      assert IsToken(secrets[r.inject.value].header);
      TokenIsSome(secrets[r.inject.value].header);
    }
  }

  lemma TokenIsSome(s: string)
    requires IsToken(s)
    ensures s != ""
  {
  }

  /** A shown host has a header exactly if its rule injects a credential, and then it is that one, masked. */
  lemma ShownCredential(r: Rule, secrets: map<string, Secret>, minted: string)
    requires NormalRule(r, secrets)
    ensures Faithful(ShownHost(r, secrets), r, secrets, minted)
  {
    hide Strip, Methods, IsToken;
    if r.inject.Some? {
      TokenIsSome(secrets[r.inject.value].header);
    }
  }

  predicate Faithful(h: Host, r: Rule, secrets: map<string, Secret>, minted: string) {
    && (h.header != "" <==> r.inject.Some?) && h.value == ""
    && (r.inject.Some? ==>
          && r.inject.value == NameFor(h, minted) && r.inject.value in secrets
          && h.header == secrets[r.inject.value].header)
  }

  lemma {:induction false} BuiltAt(hosts: seq<Host>, minted: seq<string>, n: nat, name: string) returns (i: nat)
    requires n <= |hosts| == |minted| && name in BuiltSecrets(hosts, minted, n)
    ensures i < n && hosts[i].header != "" && NameFor(hosts[i], minted[i]) == name
    ensures BuiltSecrets(hosts, minted, n)[name] == Secret(hosts[i].header, hosts[i].value)
  {
    hide NameFor;
    if hosts[n - 1].header != "" && NameFor(hosts[n - 1], minted[n - 1]) == name {
      i := n - 1;
    } else {
      i := BuiltAt(hosts, minted, n - 1, name);
    }
  }

  lemma BuiltHas(hosts: seq<Host>, rules: seq<Rule>, secrets: map<string, Secret>, minted: seq<string>, name: string)
    requires |hosts| == |rules| == |minted| && Injects(rules, name)
    requires forall i | 0 <= i < |rules| :: Faithful(hosts[i], rules[i], secrets, minted[i])
    ensures name in BuiltSecrets(hosts, minted, |hosts|)
  {
    hide BuiltSecrets, NameFor;
    var i :| 0 <= i < |rules| && rules[i].inject == Some(name);
    assert Faithful(hosts[i], rules[i], secrets, minted[i]);
    BuiltSecretsMean(hosts, minted, |hosts|);
  }

  lemma FaithfulRestores(hosts: seq<Host>, rules: seq<Rule>, secrets: map<string, Secret>, minted: seq<string>)
    requires |hosts| == |rules| == |minted|
    requires forall i | 0 <= i < |rules| :: Faithful(hosts[i], rules[i], secrets, minted[i])
    requires forall n | n in secrets :: Injects(rules, n)
    ensures Preserved(secrets, BuiltSecrets(hosts, minted, |hosts|)) == secrets
  {
    hide BuiltSecrets, NameFor, Restored, Injects;
    var built := BuiltSecrets(hosts, minted, |hosts|);
    forall name | name in secrets ensures name in built {
      BuiltHas(hosts, rules, secrets, minted, name);
    }
    forall name | name in built ensures name in secrets && Restored(built[name], name, secrets) == secrets[name] {
      var i := BuiltAt(hosts, minted, |hosts|, name);
      assert Faithful(hosts[i], rules[i], secrets, minted[i]);
      MaskIsRestored(name, secrets);
    }
  }

  lemma MaskIsRestored(name: string, secrets: map<string, Secret>)
    requires name in secrets
    ensures Restored(Secret(secrets[name].header, ""), name, secrets) == secrets[name]
  {
  }

  lemma UntouchedIsRestored(s: Stored, minted: seq<string>)
    requires Normal(s) && s.policy.Some? && |minted| == |Shown(s).hosts|
    ensures Preserved(s.secrets.value, BuiltSecrets(Shown(s).hosts, minted, |minted|)) == s.secrets.value
  {
    hide Strip, Methods, IsToken, NormalRule, BuiltSecrets, ShownHost, NameFor, Preserved, Faithful, Injects;
    var rules, secrets := s.policy.value.rules, s.secrets.value;
    forall i | 0 <= i < |rules| ensures Faithful(Shown(s).hosts[i], rules[i], secrets, minted[i]) {
      ShownCredential(rules[i], secrets, minted[i]);
    }
    FaithfulRestores(Shown(s).hosts, rules, secrets, minted);
  }

  /** Main result: saving the editor exactly as it was shown gives back exactly what was stored, if and only if
      what was stored is normal and passes the model's check. */
  lemma UntouchedRoundTrip(s: Stored, minted: seq<string>)
    requires Mint(minted, |Shown(s).hosts|)
    ensures Saved(s.secrets, s.policy.Some?, Shown(s), minted) == Ok(s) <==>
            Normal(s) && Valid(s.policy, Readable(s))
  {
    hide Strip, Methods, IsToken, Valid, NormalRule, BuiltSecrets, CleanHost, ShownHost, BuiltRule;
    if Saved(s.secrets, s.policy.Some?, Shown(s), minted) == Ok(s) {
      FormOutputIsNormal(s.secrets, s.policy.Some?, Shown(s), minted);
    }
    if Normal(s) && s.policy.Some? {
      NormalRebuilds(s, minted);
    }
  }

  lemma NormalRebuilds(s: Stored, minted: seq<string>)
    requires Normal(s) && s.policy.Some? && |minted| == |Shown(s).hosts|
    ensures Clean(Shown(s)) == Ok(Shown(s))
    ensures Built(Shown(s), minted).0 == s.policy
    ensures Preserved(s.secrets.value, Built(Shown(s), minted).1) == s.secrets.value
  {
    hide Strip, Methods, IsToken, NormalRule, BuiltSecrets, CleanHost, ShownHost, BuiltRule;
    var p, secrets := s.policy.value, s.secrets.value;
    ShownIsAllClean(p.rules, secrets, Shown(s).hosts, |p.rules|);
    assert Shown(s).hosts[..|p.rules|] == Shown(s).hosts;
    UntouchedIsRestored(s, minted);
    forall i | 0 <= i < |p.rules| ensures BuiltRule(Shown(s).hosts[i], minted[i]) == p.rules[i] {
      ShownRebuilds(p.rules[i], secrets, minted[i]);
    }
    assert BuiltRules(Shown(s).hosts, minted) == p.rules;
  }

  /** One rule for one host and method, without a credential. */
  function OneRule(host: string, intercept: Intercept, m: string, secrets: map<string, Secret>): Stored {
    Stored(Some(Policy("deny", intercept, [Rule(host, [m], None)])), Some(secrets))
  }

  lemma OneRuleIsValid(host: string, intercept: Intercept, m: string, secrets: map<string, Secret>)
    requires Strip(host) == host != "" && !HasBreak(host)
    requires secrets == map[] || secrets == map["old" := Secret("X-Key", "v")]
    ensures Valid(OneRule(host, intercept, m, secrets).policy, secrets)
  {
    NoSpaceEnds("X-Key");
    hide Strip;
    if secrets != map[] {
      assert secrets.Keys == {"old"};
    }
  }

  lemma OneRuleIsNormal(host: string, m: string)
    requires Strip(host) == host != "" && m in ["GET", "HEAD", "OPTIONS", "POST", "*"]
    ensures Normal(OneRule(host, All, m, map[]))
  {
    hide NormalRule;
    PlainRule(host, m, map[]);
  }

  lemma PlainHost()
    ensures Strip("a.b") == "a.b"
  {
    NoSpaceEnds("a.b");
  }

  /** A stored state the model accepts and the form does not keep: it intercepts credentialed hosts only, and holds a
      credential no rule uses. An untouched save makes it intercept every host and drops the credential. */
  lemma UntouchedSaveChanges(minted: string)
    ensures var s := OneRule("a.b", Credentialed, "*", map["old" := Secret("X-Key", "v")]);
            && Valid(s.policy, Readable(s)) && |Shown(s).hosts| == 1
            && Saved(s.secrets, true, Shown(s), [minted]) == Ok(OneRule("a.b", All, "*", map[]))
  {
    var orphan := map["old" := Secret("X-Key", "v")];
    var s, t := OneRule("a.b", Credentialed, "*", orphan), OneRule("a.b", All, "*", map[]);
    PlainHost();
    OneRuleIsValid("a.b", Credentialed, "*", orphan);
    OneRuleIsValid("a.b", All, "*", map[]);
    OneRuleIsNormal("a.b", "*");
    OneRuleShown(orphan);
    OneShown(s);
    hide Valid, Normal, Clean, Built, Preserved, Shown, Saved;
    NormalRebuilds(t, [minted]);
    PreservedNothing(orphan, t, [minted]);
    CleanIsSaved(orphan, Shown(t), [minted]);
  }

  lemma CleanIsSaved(existing: map<string, Secret>, e: Editor, minted: seq<string>)
    requires |minted| == |e.hosts| && Clean(e) == Ok(e) && Built(e, minted).0.Some?
    ensures Saved(Some(existing), true, e, minted) ==
            Checked(Built(e, minted).0, Preserved(existing, Built(e, minted).1))
  {
    hide Clean, Built, Preserved, Valid;
  }

  /** Neither the interception nor an unused credential is shown. */
  lemma OneRuleShown(secrets: map<string, Secret>)
    ensures Shown(OneRule("a.b", Credentialed, "*", secrets)) == Shown(OneRule("a.b", All, "*", map[]))
  {
    hide ShownHost;
    NothingInjected(Rule("a.b", ["*"], None), secrets);
  }

  lemma OneShown(s: Stored)
    requires s.policy.Some?
    ensures |Shown(s).hosts| == |s.policy.value.rules|
  {
  }

  lemma NothingInjected(r: Rule, secrets: map<string, Secret>)
    requires r.inject.None?
    ensures ShownHost(r, secrets) == ShownHost(r, map[])
  {
  }

  /** A rule for one host and method without a credential is normal. */
  lemma PlainRule(host: string, m: string, secrets: map<string, Secret>)
    requires Strip(host) == host != "" && m in ["GET", "HEAD", "OPTIONS", "POST", "*"]
    ensures NormalRule(Rule(host, [m], None), secrets)
  {
    hide Strip, Upper;
    NamedOne(m, []);
    assert [m] + [] == [m];
  }

  /** Where no rule names a credential, none is stored, whatever there was. */
  lemma PreservedNothing(existing: map<string, Secret>, t: Stored, minted: seq<string>)
    requires Normal(t) && t.policy.Some? && t.secrets.value == map[] && |minted| == |Shown(t).hosts|
    ensures Preserved(existing, Built(Shown(t), minted).1) == map[]
  {
    hide Strip, Methods, NormalRule, ShownHost, BuiltRule;
    NormalRebuilds(t, minted);
    assert Preserved(map[], Built(Shown(t), minted).1).Keys == Built(Shown(t), minted).1.Keys;
  }

  lemma Spelled(m: string)
    requires m in ["GET", "HEAD", "OPTIONS", "POST", "*"]
    ensures Strip(m) == m && Upper(m) == m && m != ""
  {
    NoSpaceEnds(m);
    hide Strip;
    assert forall i | 0 <= i < |m| :: Upper(m)[i] == m[i];
  }

  lemma NamedOne(m: string, rest: seq<string>)
    requires m in ["GET", "HEAD", "OPTIONS", "POST", "*"] && Named(rest) == rest
    ensures Named([m] + rest) == [m] + rest
  {
    hide Strip, Upper;
    Spelled(m);
    assert ([m] + rest)[1..] == rest;
  }

  /** So whatever the form has stored survives any number of untouched edits. */
  lemma StoredByTheFormSurvives(existing: Option<map<string, Secret>>, on: bool, e: Editor, minted: seq<string>,
                                again: seq<string>)
    requires Mint(minted, |e.hosts|) && Saved(existing, on, e, minted).Ok?
    requires Mint(again, |Shown(Saved(existing, on, e, minted).value).hosts|)
    ensures var s := Saved(existing, on, e, minted).value;
            Saved(s.secrets, s.policy.Some?, Shown(s), again) == Ok(s)
  {
    hide Normal, Clean, Built, Preserved, Valid, Shown;
    FormOutputIsNormal(existing, on, e, minted);
    UntouchedRoundTrip(Saved(existing, on, e, minted).value, again);
  }

  // ---------------------------------------------------------------- through the browser

  const READ_ONLY := ["GET", "HEAD", "OPTIONS"]

  /** What `String.prototype.trim` removes: unlike `str.strip`, U+FEFF, and neither U+0085 nor U+001C to U+001F. */
  predicate IsScriptSpace(c: char) {
    var n := c as int;
    || 9 <= n <= 13 || n == 32 || n == 0xA0 || n == 0x1680 || 0x2000 <= n <= 0x200A
    || n == 0x2028 || n == 0x2029 || n == 0x202F || n == 0x205F || n == 0x3000 || n == 0xFEFF
  }

  function TrimStart(s: string): (r: string)
    ensures |r| <= |s| && (|r| == |s| ==> r == s) && forall c | c in r :: c in s
  {
    if s != "" && IsScriptSpace(s[0]) then TrimStart(s[1..]) else s
  }

  function TrimEnd(s: string): (r: string)
    ensures |r| <= |s| && (|r| == |s| ==> r == s) && forall c | c in r :: c in s
  {
    if s != "" && IsScriptSpace(s[|s| - 1]) then TrimEnd(s[..|s| - 1]) else s
  }

  /** `trim` of the script. */
  function Trim(s: string): (r: string)
    ensures |r| <= |s| && (|r| == |s| ==> r == s) && forall c | c in r :: c in s
  {
    TrimEnd(TrimStart(s))
  }

  /** It takes the script's white space from both ends and nothing else. */
  lemma TrimMeans(s: string) returns (i: nat, j: nat)
    ensures i <= j <= |s| && Trim(s) == s[i..j]
    ensures forall c | c in s[..i] + s[j..] :: IsScriptSpace(c)
    ensures Trim(s) != "" ==> !IsScriptSpace(s[i]) && !IsScriptSpace(s[j - 1])
  {
    hide IsScriptSpace;
    i := TrimStartMeans(s);
    var k := TrimEndMeans(s[i..]);
    j := i + k;
    assert s[i..][k..] == s[j..] && s[i..][..k] == s[i..j];
  }

  lemma {:induction false} TrimStartMeans(s: string) returns (i: nat)
    ensures i <= |s| && TrimStart(s) == s[i..] && forall c | c in s[..i] :: IsScriptSpace(c)
    ensures i < |s| ==> !IsScriptSpace(s[i])
  {
    hide IsScriptSpace;
    if s != "" && IsScriptSpace(s[0]) {
      var k := TrimStartMeans(s[1..]);
      i := k + 1;
      assert s[..i] == [s[0]] + s[1..][..k];
    } else {
      i := 0;
    }
  }

  lemma {:induction false} TrimEndMeans(s: string) returns (k: nat)
    ensures k <= |s| && TrimEnd(s) == s[..k] && forall c | c in s[k..] :: IsScriptSpace(c)
    ensures k > 0 ==> !IsScriptSpace(s[k - 1])
  {
    hide IsScriptSpace;
    if s != "" && IsScriptSpace(s[|s| - 1]) {
      k := TrimEndMeans(s[..|s| - 1]);
      assert s[k..] == s[..|s| - 1][k..] + [s[|s| - 1]];
    } else {
      k := |s|;
    }
  }

  /** `isReadOnlyMethods` of the editor script. */
  predicate IsReadOnly(methods: seq<string>) {
    var names := set m | m in methods && Trim(m) != "" :: Upper(Trim(m));
    |names| == |READ_ONLY| && forall m | m in READ_ONLY :: m in names
  }

  /** What the editor script sends for an untouched row. */
  function Sent(h: Host): Host {
    var cred := (h.header != "" || h.hasExisting) && Trim(h.header) != "";
    Host(Trim(h.host),
         if IsReadOnly(h.methods) then READ_ONLY else ["*"],
         if cred then Trim(h.header) else "",
         if cred then h.value else "",
         if cred then h.secretName else "",
         h.hasExisting)
  }

  /** Of the first n rows those with a host are sent. */
  function SentHosts(hosts: seq<Host>, n: nat): seq<Host>
    requires n <= |hosts|
  {
    if n == 0 then [] else
      SentHosts(hosts, n - 1) + if Trim(hosts[n - 1].host) != "" then [Sent(hosts[n - 1])] else []
  }

  function SentEditor(e: Editor): Editor {
    Editor(if e.defaultAction == "allow" then "allow" else "deny", SentHosts(e.hosts, |e.hosts|))
  }

  /** The only method lists the browser editor knows. */
  predicate Known(methods: seq<string>) {
    methods == READ_ONLY || methods == ["*"]
  }

  predicate AllKnown(s: Stored) {
    s.policy.Some? ==> forall r | r in s.policy.value.rules :: Known(r.methods)
  }

  /** No host begins or ends with what the script trims. */
  predicate AllTrimmed(s: Stored) {
    s.policy.Some? ==> forall r | r in s.policy.value.rules :: Trim(r.host) == r.host
  }

  lemma NothingToTrim(s: string)
    requires s != "" ==> !IsScriptSpace(s[0]) && !IsScriptSpace(s[|s| - 1])
    ensures Trim(s) == s
  {
  }

  lemma TokenIsTrimmed(s: string)
    requires IsToken(s)
    ensures Trim(s) == s
  {
    assert s[0] in s && s[|s| - 1] in s;
    NothingToTrim(s);
  }

  lemma OneMethod(m: string)
    requires m in ["GET", "HEAD", "OPTIONS", "POST", "*"]
    ensures Trim(m) == m && Upper(m) == m && m != ""
  {
    NothingToTrim(m);
    hide Trim;
    Spelled(m);
  }

  lemma KnownIsNamed()
    ensures Methods(READ_ONLY) == READ_ONLY && Methods(["*"]) == ["*"]
  {
    hide Strip, Upper;
    NamedOne("OPTIONS", []);
    NamedOne("HEAD", ["OPTIONS"] + []);
    NamedOne("GET", ["HEAD"] + (["OPTIONS"] + []));
    NamedOne("*", []);
    assert READ_ONLY == ["GET"] + (["HEAD"] + (["OPTIONS"] + []));
    assert ["*"] == ["*"] + [];
  }

  lemma ReadOnlyIsKnown()
    ensures IsReadOnly(READ_ONLY)
  {
    hide Trim, Upper;
    OneMethod("GET");
    OneMethod("HEAD");
    OneMethod("OPTIONS");
    var names := set m | m in READ_ONLY && Trim(m) != "" :: Upper(Trim(m));
    assert names == {"GET", "HEAD", "OPTIONS"};
  }

  lemma OneIsNotReadOnly(m: string)
    requires m in ["POST", "*"]
    ensures !IsReadOnly([m])
  {
    hide Trim, Upper;
    OneMethod(m);
    assert "GET" in READ_ONLY;
  }

  /** What the editor script makes of a method list. */
  function Substitute(methods: seq<string>): seq<string> {
    if IsReadOnly(methods) then READ_ONLY else ["*"]
  }

  /** A list counts as read-only exactly if its methods, blank ones aside, are the three in any order, case and
      number. */
  lemma ReadOnlyMeans(methods: seq<string>)
    ensures Substitute(methods) == ["GET", "HEAD", "OPTIONS"] || Substitute(methods) == ["*"]
    ensures Substitute(methods) != ["*"] <==>
            && (forall m | m in methods && Trim(m) != "" :: Upper(Trim(m)) in ["GET", "HEAD", "OPTIONS"])
            && (forall n | n in ["GET", "HEAD", "OPTIONS"] ::
                  exists m | m in methods :: Trim(m) != "" && Upper(Trim(m)) == n)
  {
    hide Trim, Upper;
    var names := set m | m in methods && Trim(m) != "" :: Upper(Trim(m));
    var three := {"GET", "HEAD", "OPTIONS"};
    assert forall n :: n in READ_ONLY <==> n in three;
    assert |READ_ONLY| == |three|;
    assert IsReadOnly(methods) <==> names == three by {
      if three <= names && |names| == |three| {
        SameSet(three, names);
      }
      assert IsReadOnly(methods) ==> forall n | n in three :: n in names;
    }
    hide IsReadOnly;
    assert forall n :: n in names <==> exists m | m in methods :: Trim(m) != "" && Upper(Trim(m)) == n;
    if forall m | m in methods && Trim(m) != "" :: Upper(Trim(m)) in ["GET", "HEAD", "OPTIONS"] {
      assert names <= three;
    }
    assert "GET" in READ_ONLY && READ_ONLY != ["*"];
  }

  lemma SameSet(a: set<string>, b: set<string>)
    requires a <= b && |a| == |b|
    ensures a == b
  {
    assert b == a + (b - a);
  }

  lemma SubstituteMeans(methods: seq<string>)
    ensures Substitute(methods) == methods <==> Known(methods)
    ensures Methods(Substitute(methods)) == Substitute(methods) && Substitute(methods) != []
  {
    hide IsReadOnly, Methods;
    KnownIsNamed();
    ReadOnlyIsKnown();
    OneIsNotReadOnly("*");
  }

  /** A rule as the script sends it and the form then strips it. */
  function SubstitutedRule(r: Rule): Rule {
    Rule(Strip(Trim(r.host)), Substitute(r.methods), r.inject)
  }

  /** Of the first n rules those whose host is more than what the script trims. */
  function Substitutes(rules: seq<Rule>, n: nat): seq<Rule>
    requires n <= |rules|
  {
    if n == 0 then [] else
      Substitutes(rules, n - 1) + if Trim(rules[n - 1].host) != "" then [SubstitutedRule(rules[n - 1])] else []
  }

  /** The stored state as the editor script sends it, with the credentials its rules still name. */
  function Substituted(s: Stored): Stored {
    if s.policy.None? then s else
      var rules := Substitutes(s.policy.value.rules, |s.policy.value.rules|);
      Stored(Some(s.policy.value.(rules := rules)),
             Some(map n | n in Readable(s) && Injects(rules, n) :: Readable(s)[n]))
  }

  /** The sent row h is cleaned to what is shown of the rule r, or refused if r has no host. */
  ghost predicate CleansTo(h: Host, r: Rule, secrets: map<string, Secret>) {
    forall i: nat :: CleanHost(h, i) == if r.host == "" then Err(BlankHost(i)) else Ok(ShownHost(r, secrets))
  }

  lemma SentCleansTo(r: Rule, secrets: map<string, Secret>)
    requires NormalRule(r, secrets)
    ensures CleansTo(Sent(ShownHost(r, secrets)), SubstitutedRule(r), secrets)
    ensures ShownHost(r, secrets).host == r.host
  {
    hide Strip, Trim, Methods, IsToken, IsReadOnly;
    SubstituteMeans(r.methods);
    MethodsAreSome(r.methods);
    EmptyStrips();
    if r.inject.Some? {
      TokenIsStripped(secrets[r.inject.value].header);
      TokenIsTrimmed(secrets[r.inject.value].header);
      TokenIsSome(secrets[r.inject.value].header);
    } else {
      NothingToTrim("");
    }
  }

  lemma SubstitutedRuleIsNormal(r: Rule, secrets: map<string, Secret>)
    requires NormalRule(r, secrets) && SubstitutedRule(r).host != ""
    ensures NormalRule(SubstitutedRule(r), secrets)
  {
    hide Strip, Trim, Methods, IsToken, Substitute;
    StripTwice(Trim(r.host));
    SubstituteMeans(r.methods);
  }

  lemma {:induction false} SentAre(rules: seq<Rule>, secrets: map<string, Secret>, hosts: seq<Host>, n: nat)
    requires n <= |rules| == |hosts|
    requires forall i | 0 <= i < |rules| :: NormalRule(rules[i], secrets) && hosts[i] == ShownHost(rules[i], secrets)
    ensures |SentHosts(hosts, n)| == |Substitutes(rules, n)|
    ensures forall i | 0 <= i < |Substitutes(rules, n)| ::
              CleansTo(SentHosts(hosts, n)[i], Substitutes(rules, n)[i], secrets)
  {
    hide NormalRule, SubstitutedRule, ShownHost, Sent, Trim, CleansTo;
    if n > 0 {
      SentAre(rules, secrets, hosts, n - 1);
      SentCleansTo(rules[n - 1], secrets);
    }
  }

  /** Every rule sent stands for a stored one; if none is left out, each for the one in its place. */
  lemma {:induction false} SubstitutesMean(rules: seq<Rule>, n: nat)
    requires n <= |rules|
    ensures |Substitutes(rules, n)| <= n
    ensures forall q | q in Substitutes(rules, n) :: exists r | r in rules :: q == SubstitutedRule(r)
    ensures |Substitutes(rules, n)| == n <==> forall i | 0 <= i < n :: Trim(rules[i].host) != ""
    ensures |Substitutes(rules, n)| == n ==>
              forall i | 0 <= i < n :: Substitutes(rules, n)[i] == SubstitutedRule(rules[i])
  {
    hide SubstitutedRule, Trim;
    if n > 0 {
      SubstitutesMean(rules, n - 1);
      assert rules[n - 1] in rules;
    }
  }

  lemma {:induction false} CleanedAre(hosts: seq<Host>, rules: seq<Rule>, secrets: map<string, Secret>, n: nat)
    requires n <= |hosts| == |rules|
    requires forall i | 0 <= i < |rules| :: CleansTo(hosts[i], rules[i], secrets)
    requires forall i | 0 <= i < n :: rules[i].host != ""
    ensures CleanHosts(hosts, n).Ok? && forall i | 0 <= i < n ::
              CleanHosts(hosts, n).value[i] == ShownHost(rules[i], secrets)
  {
    hide CleanHost, ShownHost;
    if n > 0 {
      CleanedAre(hosts, rules, secrets, n - 1);
      assert CleansTo(hosts[n - 1], rules[n - 1], secrets);
    }
  }

  lemma FirstBlankRefuses(hosts: seq<Host>, rules: seq<Rule>, secrets: map<string, Secret>, i: nat)
    requires i < |hosts| == |rules| && rules[i].host == ""
    requires forall j | 0 <= j < |rules| :: CleansTo(hosts[j], rules[j], secrets)
    requires forall j | 0 <= j < i :: rules[j].host != ""
    ensures CleanHosts(hosts, |hosts|) == Err(BlankHost(i))
  {
    hide CleanHost, ShownHost;
    CleanedAre(hosts, rules, secrets, i);
    assert CleansTo(hosts[i], rules[i], secrets);
    FaultStays(hosts, i + 1, |hosts|);
  }

  /** Every rule of Substituted(s) has a host. */
  predicate NoBlank(s: Stored) {
    s.policy.Some? ==> forall r | r in Substituted(s).policy.value.rules :: r.host != ""
  }

  predicate PermitsSome(s: Stored) {
    s.policy.Some? ==> Substituted(s).policy.value.rules != [] || s.policy.value.defaultAction == "allow"
  }

  lemma NoBreakComesIn(s: string)
    requires !HasBreak(s)
    ensures !HasBreak(Strip(Trim(s)))
  {
    var t := Trim(s);
    assert forall c | c in TrimRight(TrimLeft(t)) :: c in TrimLeft(t);
  }

  /** Whether a rule is normal depends on its own credential alone. */
  lemma NormalInBoth(r: Rule, a: map<string, Secret>, b: map<string, Secret>)
    requires NormalRule(r, a)
    requires r.inject.Some? ==> r.inject.value in b && (r.inject.value in a ==> a[r.inject.value] == b[r.inject.value])
    ensures NormalRule(r, b)
  {
    hide Strip, Methods, IsToken;
  }

  lemma NormalInjects(r: Rule, secrets: map<string, Secret>)
    requires NormalRule(r, secrets) && r.inject.Some?
    ensures r.inject.value in secrets
  {
    hide Strip, Methods, IsToken;
  }

  lemma RuleIsFrom(s: Stored, q: Rule) returns (r: Rule)
    requires Normal(s) && s.policy.Some? && q in Substituted(s).policy.value.rules
    ensures r in s.policy.value.rules && q == SubstitutedRule(r) && NormalRule(r, s.secrets.value)
  {
    hide NormalRule, SubstitutedRule, Substitutes;
    var rules := s.policy.value.rules;
    SubstitutesMean(rules, |rules|);
    r :| r in rules && q == SubstitutedRule(r);
  }

  lemma CredentialStays(s: Stored, q: Rule)
    requires Normal(s) && s.policy.Some? && q in Substituted(s).policy.value.rules
    requires q.inject.Some? && q.inject.value in s.secrets.value
    ensures var t := Readable(Substituted(s));
            q.inject.value in t && t[q.inject.value] == s.secrets.value[q.inject.value]
  {
    hide NormalRule, Substitutes;
    var kept := Substituted(s).policy.value.rules;
    var i :| 0 <= i < |kept| && kept[i] == q;
    assert Injects(kept, q.inject.value);
  }

  lemma RuleStays(s: Stored, q: Rule)
    requires Normal(s) && Valid(s.policy, Readable(s)) && NoBlank(s)
    requires s.policy.Some? && q in Substituted(s).policy.value.rules
    ensures NormalRule(q, Readable(Substituted(s)))
    ensures q.methods != [] && !HasBreak(q.host) && Strip(q.host) != ""
    ensures q.inject.Some? ==> q.inject.value in Readable(Substituted(s)) && q.inject.value != PLATFORM_SECRET
  {
    var r := RuleIsFrom(s, q);
    assert q.host != "" && r.methods != [] && !HasBreak(r.host);
    assert r.inject.Some? ==> r.inject.value != PLATFORM_SECRET;
    assert s.secrets == Some(Readable(s));
    hide Normal, Valid, NoBlank, NormalRule, Substituted, Substitute, HasBreak, Trim, Strip, Readable;
    NoBreakComesIn(r.host);
    SubstituteMeans(r.methods);
    SubstitutedRuleIsNormal(r, s.secrets.value);
    StrippedStays(Trim(r.host));
    if q.inject.Some? {
      NormalInjects(q, s.secrets.value);
      CredentialStays(s, q);
    }
    NormalInBoth(q, s.secrets.value, Readable(Substituted(s)));
  }

  lemma StrippedStays(s: string)
    requires Strip(s) != ""
    ensures Strip(Strip(s)) != ""
  {
    StripTwice(s);
  }

  lemma SubstitutedIsNormal(s: Stored)
    requires Normal(s) && Valid(s.policy, Readable(s)) && NoBlank(s) && PermitsSome(s)
    ensures Normal(Substituted(s)) && Valid(Substituted(s).policy, Readable(Substituted(s)))
  {
    hide Strip, Trim, Methods, HasBreak, NormalRule, SubstitutedRule;
    if s.policy.Some? {
      SubstitutesMean(s.policy.value.rules, |s.policy.value.rules|);
      SubsetSize(Readable(Substituted(s)).Keys, s.secrets.value.Keys);
      forall q | q in Substituted(s).policy.value.rules
        ensures NormalRule(q, Readable(Substituted(s)))
        ensures q.methods != [] && !HasBreak(q.host) && Strip(q.host) != ""
        ensures q.inject.Some? ==> q.inject.value in Readable(Substituted(s)) && q.inject.value != PLATFORM_SECRET
      {
        RuleStays(s, q);
      }
    }
  }

  lemma SameShown(r: Rule, a: map<string, Secret>, b: map<string, Secret>)
    requires r.inject.Some? ==> r.inject.value in a && r.inject.value in b && a[r.inject.value] == b[r.inject.value]
    ensures ShownHost(r, a) == ShownHost(r, b)
  {
  }

  /** The form cleans what the script sends to what is shown of Substituted(s). */
  lemma SentCleans(s: Stored)
    requires Normal(s) && Valid(s.policy, Readable(s)) && s.policy.Some? && NoBlank(s)
    ensures Clean(SentEditor(Shown(s))) == Ok(Shown(Substituted(s)))
  {
    hide Strip, Trim, Methods, Valid, NormalRule, SubstitutedRule, ShownHost, CleansTo;
    var rules, hosts := s.policy.value.rules, Shown(s).hosts;
    var kept, secrets := Substitutes(rules, |rules|), s.secrets.value;
    SentAre(rules, secrets, hosts, |rules|);
    var sent := SentHosts(hosts, |hosts|);
    CleanedAre(sent, kept, secrets, |kept|);
    forall i | 0 <= i < |kept| ensures ShownHost(kept[i], secrets) == ShownHost(kept[i], Readable(Substituted(s))) {
      RuleStays(s, kept[i]);
      SameShown(kept[i], secrets, Readable(Substituted(s)));
    }
    assert CleanHosts(sent, |sent|).value == Shown(Substituted(s)).hosts;
  }

  /** Restoring from more credentials than a submission names restores the same. */
  lemma PreservedFromMore(less: map<string, Secret>, more: map<string, Secret>, submitted: map<string, Secret>)
    requires Preserved(less, submitted) == less && less.Keys <= more.Keys && forall n | n in less :: less[n] == more[n]
    ensures Preserved(more, submitted) == less
  {
    assert submitted.Keys == Preserved(less, submitted).Keys;
  }

  predicate FirstBlank(rules: seq<Rule>, i: nat) {
    i < |rules| && rules[i].host == "" && forall j | 0 <= j < i :: rules[j].host != ""
  }

  lemma {:induction false} BlankIsFirst(rules: seq<Rule>, k: nat) returns (i: nat)
    requires k < |rules| && rules[k].host == ""
    ensures FirstBlank(rules, i)
  {
    if j: nat :| j < k && rules[j].host == "" {
      i := BlankIsFirst(rules, j);
    } else {
      i := k;
    }
  }

  lemma BlankIsRefused(s: Stored, minted: seq<string>) returns (i: nat)
    requires |minted| == |SentEditor(Shown(s)).hosts| && Normal(s) && !NoBlank(s)
    ensures FirstBlank(Substituted(s).policy.value.rules, i)
    ensures Saved(s.secrets, true, SentEditor(Shown(s)), minted) == Err(BlankHost(i))
  {
    hide Strip, Trim, Methods, NormalRule, SubstitutedRule, ShownHost, CleansTo;
    var rules, hosts := s.policy.value.rules, Shown(s).hosts;
    var kept := Substitutes(rules, |rules|);
    var k: nat :| k < |kept| && kept[k].host == "";
    i := BlankIsFirst(kept, k);
    SentAre(rules, s.secrets.value, hosts, |rules|);
    FirstBlankRefuses(SentHosts(hosts, |hosts|), kept, s.secrets.value, i);
  }

  lemma KeptIsSaved(s: Stored, minted: seq<string>)
    requires |minted| == |SentEditor(Shown(s)).hosts|
    requires Normal(s) && Valid(s.policy, Readable(s)) && s.policy.Some? && NoBlank(s) && PermitsSome(s)
    ensures Saved(s.secrets, true, SentEditor(Shown(s)), minted) == Ok(Substituted(s))
  {
    var t := Substituted(s);
    assert s.secrets == Some(Readable(s));
    assert t.secrets == Some(Readable(t)) && Readable(t).Keys <= Readable(s).Keys;
    assert forall n | n in Readable(t) :: Readable(t)[n] == Readable(s)[n];
    hide Valid, Normal, Clean, Built, Preserved, Shown, NoBlank, PermitsSome, SentEditor, Substituted, Readable;
    SentCleans(s);
    SubstitutedIsNormal(s);
    CleanKeepsCount(SentEditor(Shown(s)));
    NormalRebuilds(t, minted);
    PreservedFromMore(Readable(t), Readable(s), Built(Shown(t), minted).1);
  }

  lemma NothingKeptIsRefused(s: Stored, minted: seq<string>)
    requires |minted| == |SentEditor(Shown(s)).hosts|
    requires Normal(s) && Valid(s.policy, Readable(s)) && NoBlank(s) && !PermitsSome(s)
    ensures Saved(s.secrets, true, SentEditor(Shown(s)), minted) == Err(PermitsNothing)
  {
    hide Valid, Normal, Clean, NoBlank, SentEditor;
    SentCleans(s);
  }

  /** What an untouched save through the browser does to any state the form stores: a rule whose host is no more than
      what the script trims is dropped, together with a credential no other rule names; every other host is trimmed
      by the script and stripped by the form, and its method list becomes the read-only one or all methods; nothing
      else changes. It is refused exactly if the form's stripping leaves nothing of a host sent, or no rule is left
      and nothing is permitted. */
  lemma BrowserSubstitutes(s: Stored, minted: seq<string>)
    requires Mint(minted, |SentEditor(Shown(s)).hosts|)
    requires Normal(s) && Valid(s.policy, Readable(s))
    ensures var saved := Saved(s.secrets, s.policy.Some?, SentEditor(Shown(s)), minted);
            if !NoBlank(s) then
              exists i: nat :: FirstBlank(Substituted(s).policy.value.rules, i) && saved == Err(BlankHost(i))
            else if !PermitsSome(s) then saved == Err(PermitsNothing)
            else saved == Ok(Substituted(s))
  {
    if s.policy.None? {
      assert SentEditor(Shown(s)) == Shown(s);
    }
    hide Valid, Normal, Saved, Shown, SentEditor, FirstBlank;
    if s.policy.None? {
      UntouchedRoundTrip(s, minted);
    } else if !NoBlank(s) {
      var i := BlankIsRefused(s, minted);
    } else if !PermitsSome(s) {
      NothingKeptIsRefused(s, minted);
    } else {
      KeptIsSaved(s, minted);
    }
  }

  lemma SubstitutedRuleIsSame(r: Rule, secrets: map<string, Secret>)
    requires NormalRule(r, secrets)
    ensures SubstitutedRule(r) == r <==> Known(r.methods) && Trim(r.host) == r.host
  {
    hide Trim, Methods, Substitute, Known;
    SubstituteMeans(r.methods);
    assert |Strip(Trim(r.host))| <= |Trim(r.host)|;
  }

  lemma SubstitutedIsSame(s: Stored)
    requires Normal(s)
    ensures Substituted(s) == s <==> AllKnown(s) && AllTrimmed(s)
    ensures Substituted(s) == s ==> NoBlank(s) && PermitsSome(s)
  {
    hide Strip, Trim, Methods, Known, SubstitutedRule, IsToken;
    if s.policy.Some? {
      var rules := s.policy.value.rules;
      var kept := Substitutes(rules, |rules|);
      forall i | 0 <= i < |rules| ensures SubstitutedRule(rules[i]) == rules[i] <==>
                                         Known(rules[i].methods) && Trim(rules[i].host) == rules[i].host {
        SubstitutedRuleIsSame(rules[i], s.secrets.value);
      }
      SubstitutesMean(rules, |rules|);
      if AllKnown(s) && AllTrimmed(s) {
        assert kept == rules;
      }
      if kept == rules {
        assert Readable(Substituted(s)) == s.secrets.value;
      }
    }
  }

  /** Through the browser the round trip also needs every method list to be one the editor script knows, and every
      host to have nothing at its ends that the script trims. */
  lemma BrowserRoundTrip(s: Stored, minted: seq<string>)
    requires Mint(minted, |SentEditor(Shown(s)).hosts|)
    ensures Saved(s.secrets, s.policy.Some?, SentEditor(Shown(s)), minted) == Ok(s) <==>
            Normal(s) && Valid(s.policy, Readable(s)) && AllKnown(s) && AllTrimmed(s)
  {
    hide Normal, Valid, Saved, Shown, SentEditor, AllKnown, AllTrimmed, Substituted, NoBlank, PermitsSome;
    if Saved(s.secrets, s.policy.Some?, SentEditor(Shown(s)), minted) == Ok(s) {
      FormOutputIsNormal(s.secrets, s.policy.Some?, SentEditor(Shown(s)), minted);
      SavedIsValid(s.secrets, s.policy.Some?, SentEditor(Shown(s)), minted);
    }
    if Normal(s) && Valid(s.policy, Readable(s)) {
      BrowserSubstitutes(s, minted);
      SubstitutedIsSame(s);
    }
  }

  /** A submission the form accepts and the browser does not keep: a host that allows POST alone is stored as
      submitted, and after an untouched save through the browser it allows every method. */
  lemma BrowserWidensMethods(minted: string, again: string)
    requires Mint([minted], 1) && Mint([again], 1)
    ensures var e := Editor("deny", [Host("a.b", ["POST"], "", "", "", false)]);
            var s := OneRule("a.b", All, "POST", map[]);
            && Saved(Some(map[]), true, e, [minted]) == Ok(s)
            && Normal(s) && Valid(s.policy, Readable(s)) && AllTrimmed(s)
            && |SentEditor(Shown(s)).hosts| == 1
            && Saved(s.secrets, true, SentEditor(Shown(s)), [again]) == Ok(OneRule("a.b", All, "*", map[]))
  {
    PlainHost();
    NothingToTrim("a.b");
    OneRuleOutcome("a.b", "POST", minted, [again]);
  }

  /** Another one: a host with U+FEFF before it, which the form does not strip, loses it to the script. */
  lemma BrowserTrimsHosts(minted: string, again: string)
    requires Mint([minted], 1) && Mint([again], 1)
    ensures var e := Editor("deny", [Host("\U{FEFF}a.b", ["*"], "", "", "", false)]);
            var s := OneRule("\U{FEFF}a.b", All, "*", map[]);
            && Saved(Some(map[]), true, e, [minted]) == Ok(s)
            && Normal(s) && Valid(s.policy, Readable(s)) && AllKnown(s)
            && |SentEditor(Shown(s)).hosts| == 1
            && Saved(s.secrets, true, SentEditor(Shown(s)), [again]) == Ok(OneRule("a.b", All, "*", map[]))
  {
    PlainHost();
    NoSpaceEnds("\U{FEFF}a.b");
    TrimmedMark("a.b");
    NothingToTrim("a.b");
    OneRuleOutcome("\U{FEFF}a.b", "*", minted, [again]);
  }

  /** And one that the browser cannot save again at all: of a host that is only U+FEFF nothing is sent. */
  lemma BrowserRefusesStored(minted: string)
    requires Mint([minted], 1)
    ensures var e := Editor("deny", [Host("\U{FEFF}", ["*"], "", "", "", false)]);
            var s := OneRule("\U{FEFF}", All, "*", map[]);
            && Saved(Some(map[]), true, e, [minted]) == Ok(s)
            && Normal(s) && Valid(s.policy, Readable(s)) && AllKnown(s)
            && SentEditor(Shown(s)).hosts == []
            && Saved(s.secrets, true, SentEditor(Shown(s)), []) == Err(PermitsNothing)
  {
    NoSpaceEnds("\U{FEFF}");
    NothingToTrim("");
    TrimmedMark("");
    OneRuleOutcome("\U{FEFF}", "*", minted, []);
  }

  lemma TrimmedMark(s: string)
    requires Trim(s) == s && TrimStart(s) == s
    ensures Trim("\U{FEFF}" + s) == s
  {
    assert ("\U{FEFF}" + s)[1..] == s;
  }

  lemma OneRuleIsSubstituted(host: string, m: string)
    requires m in ["POST", "*"] && Strip(Trim(host)) == Trim(host)
    ensures var s := OneRule(host, All, m, map[]);
            && |SentEditor(Shown(s)).hosts| == (if Trim(host) == "" then 0 else 1)
            && (AllKnown(s) <==> m == "*") && (AllTrimmed(s) <==> Trim(host) == host)
            && NoBlank(s) && (PermitsSome(s) <==> Trim(host) != "")
            && (Trim(host) != "" ==> Substituted(s) == OneRule(Trim(host), All, "*", map[]))
  {
    var s := OneRule(host, All, m, map[]);
    OneIsNotReadOnly(m);
    hide Strip, Trim, IsReadOnly;
    var rules := s.policy.value.rules;
    assert rules == [Rule(host, [m], None)];
    assert Substitutes(rules, 0) == [];
    assert Substitutes(rules, 1) == if Trim(host) == "" then [] else [Rule(Trim(host), ["*"], None)];
    var hosts := Shown(s).hosts;
    assert SentHosts(hosts, 0) == [];
    assert |SentHosts(hosts, 1)| == if Trim(host) == "" then 0 else 1;
  }

  /** What comes of a single rule that is stored, shown and sent. */
  lemma OneRuleOutcome(host: string, m: string, minted: string, again: seq<string>)
    requires Mint([minted], 1) && m in ["POST", "*"] && host != "" && Strip(host) == host && !HasBreak(host)
    requires var h := Trim(host); Strip(h) == h && Mint(again, if h == "" then 0 else 1)
    ensures var s, h := OneRule(host, All, m, map[]), Trim(host);
            && Saved(Some(map[]), true, Editor("deny", [Host(host, [m], "", "", "", false)]), [minted]) == Ok(s)
            && Normal(s) && Valid(s.policy, Readable(s))
            && (AllKnown(s) <==> m == "*") && (AllTrimmed(s) <==> h == host)
            && |SentEditor(Shown(s)).hosts| == |again|
            && Saved(s.secrets, true, SentEditor(Shown(s)), again) ==
                 if h == "" then Err(PermitsNothing) else Ok(OneRule(h, All, "*", map[]))
  {
    var s := OneRule(host, All, m, map[]);
    OneRuleIsValid(host, All, m, map[]);
    OneRuleIsNormal(host, m);
    OneRuleIsSubstituted(host, m);
    assert Shown(s) == Editor("deny", [Host(host, [m], "", "", "", false)]);
    hide Valid, Normal, Saved, Substituted, Strip, Trim, NoBlank, PermitsSome;
    UntouchedRoundTrip(s, [minted]);
    BrowserSubstitutes(s, again);
  }

  lemma SavedIsValid(existing: Option<map<string, Secret>>, on: bool, e: Editor, minted: seq<string>)
    requires |minted| == |e.hosts| && Saved(existing, on, e, minted).Ok?
    ensures var s := Saved(existing, on, e, minted).value; Valid(s.policy, Readable(s))
  {
    hide Valid, Clean, Built, Preserved;
  }
}
