/** ensureNAT: three managed iptables rules, reconciled over changing configurations. */
module Nat {
  import opened Seqs
  import opened Text

  /** Rules as iptables compares them; `Unmanaged` stands for anything this program never writes. */
  datatype Rule =
    | Accept(inIface: string, outIface: string)
    | AcceptReturn(inIface: string, outIface: string)
    | Masquerade(source: string, outIface: string)
    | Unmanaged(text: string)

  datatype NatState = NatState(iface: string, egress: string, cidr: string)

  const NO_STATE := NatState("", "", "")
  const OVERLAY_CIDR := "10.10.0.0/16"

  /** What one call reads from its argument, the environment and the host. */
  datatype Env = Env(
    iface: string,
    darwin: bool,
    autoNAT: string,
    hasIptables: bool,
    wgCIDR: string,
    natEgressIf: string,
    wanIf: string,
    primaryDev: string)

  function OrElse(a: string, b: string): string {
    if a == "" then b else a
  }

  predicate Enabled(env: Env) {
    !env.darwin && ToLower(env.autoNAT) != "false" && env.hasIptables
  }

  function ConfigOf(env: Env): NatState {
    var iface := OrElse(env.iface, "wg0");
    NatState(iface,
             OrElse(env.natEgressIf, OrElse(env.wanIf, OrElse(env.primaryDev, iface))),
             OrElse(env.wgCIDR, OVERLAY_CIDR))
  }

  /** The interface is wg0 and the range 10.10.0.0/16 unless set; traffic leaves by the first way out that is known. */
  lemma ConfigPrecedence(env: Env)
    ensures var c := ConfigOf(env);
            && c.iface == (if env.iface != "" then env.iface else "wg0")
            && c.cidr == (if env.wgCIDR != "" then env.wgCIDR else "10.10.0.0/16")
            && (env.natEgressIf != "" ==> c.egress == env.natEgressIf)
            && (env.natEgressIf == "" && env.wanIf != "" ==> c.egress == env.wanIf)
            && (env.natEgressIf == "" && env.wanIf == "" && env.primaryDev != "" ==> c.egress == env.primaryDev)
            && (env.natEgressIf == "" && env.wanIf == "" && env.primaryDev == "" ==> c.egress == c.iface)
  {
  }

  /** It is off on macOS, without iptables, and when AUTO_NAT spells "false" in any case. */
  lemma DisabledIff(env: Env)
    ensures !Enabled(env) <==> env.darwin || !env.hasIptables || ToLower(env.autoNAT) == "false"
    ensures env.autoNAT in {"false", "FALSE", "False"} ==> !Enabled(env)
  {
    assert ToLower("FALSE") == "false" && ToLower("False") == "false" && ToLower("false") == "false";
  }

  /** The filter table's FORWARD chain, the nat table's POSTROUTING chain and the saved state. */
  datatype Host = Host(forward: seq<Rule>, postrouting: seq<Rule>, saved: NatState)

  // ---- iptables ----

  /** -D: removes the first such rule; without one it fails and changes nothing. */
  function Delete(chain: seq<Rule>, rule: Rule): seq<Rule> {
    if chain == [] then []
    else if chain[0] == rule then chain[1..]
    else [chain[0]] + Delete(chain[1..], rule)
  }

  function ForwardRules(c: NatState): seq<Rule> {
    [Accept(c.iface, c.egress), AcceptReturn(c.egress, c.iface)]
  }

  /** The three rules of a configuration. */
  function AllRules(c: NatState): seq<Rule> {
    ForwardRules(c) + [Masquerade(c.cidr, c.egress)]
  }

  predicate Installed(h: Host, rule: Rule) {
    if rule.Masquerade? then rule in h.postrouting else rule in h.forward
  }

  /** What became of the write of the state file. */
  datatype SaveResult = Written | KeptOld | Truncated

  /**
    What goes wrong during a call: -C commands that do not find an existing rule, -A and -D commands
    that fail, a state file that cannot be read or parsed, and the result of writing it.
   */
  datatype Faults = Faults(checks: set<Rule>, adds: set<Rule>, deletes: set<Rule>, load: bool, save: SaveResult)

  const NO_FAULTS := Faults({}, {}, {}, false, Written)

  /** ensureIptablesRule: -C, and -A when the check fails; None when that fails as well. */
  function Ensure(chain: seq<Rule>, rule: Rule, faults: Faults): Option<seq<Rule>> {
    if rule in chain && rule !in faults.checks then Some(chain)
    else if rule in faults.adds then None
    else Some(chain + [rule])
  }

  function TryDelete(chain: seq<Rule>, rule: Rule, faults: Faults): seq<Rule> {
    if rule in faults.deletes then chain else Delete(chain, rule)
  }

  /** Failed deletions are ignored; a state with an empty part is not cleaned up. */
  function Cleanup(h: Host, c: NatState, faults: Faults): Host {
    if c.iface == "" || c.egress == "" || c.cidr == "" then h
    else
      h.(postrouting := TryDelete(h.postrouting, Masquerade(c.cidr, c.egress), faults),
         forward := TryDelete(TryDelete(h.forward, ForwardRules(c)[0], faults), ForwardRules(c)[1], faults))
  }

  /** The first rule that cannot be ensured ends the call. */
  function Install(h: Host, c: NatState, faults: Faults): (Host, bool) {
    match Ensure(h.forward, ForwardRules(c)[0], faults)
    case None => (h, false)
    case Some(f1) =>
      match Ensure(f1, ForwardRules(c)[1], faults)
      case None => (h.(forward := f1), false)
      case Some(f2) =>
        match Ensure(h.postrouting, Masquerade(c.cidr, c.egress), faults)
        case None => (h.(forward := f2), false)
        case Some(p) => (h.(forward := f2, postrouting := p), true)
  }

  function Loaded(h: Host, faults: Faults): NatState {
    if faults.load then NO_STATE else h.saved
  }

  function Saved(h: Host, c: NatState, faults: Faults): NatState {
    match faults.save
    case Written => c
    case KeptOld => h.saved
    case Truncated => NO_STATE
  }

  /** One call, and whether it reports success. A failed save of the state is ignored. */
  function EnsureSpec(h: Host, env: Env, faults: Faults): (Host, bool) {
    if !Enabled(env) then (h, true)
    else
      var c, prev := ConfigOf(env), Loaded(h, faults);
      var cleaned := if prev.iface != "" && prev != c then Cleanup(h, prev, faults) else h;
      var (installed, ok) := Install(cleaned, c, faults);
      (if ok then installed.(saved := Saved(h, c, faults)) else installed, ok)
  }

  class Machine {
    var forward: seq<Rule>
    var postrouting: seq<Rule>
    var saved: NatState

    function State(): Host
      reads this
    {
      Host(forward, postrouting, saved)
    }

    constructor (forward: seq<Rule>, postrouting: seq<Rule>)
      ensures State() == Host(forward, postrouting, NO_STATE)
    {
      this.forward, this.postrouting, this.saved := forward, postrouting, NO_STATE;
    }

    method EnsureForward(rule: Rule, faults: Faults) returns (ok: bool)
      modifies `forward
      ensures ok <==> Ensure(old(forward), rule, faults).Some?
      ensures forward == if ok then Ensure(old(forward), rule, faults).value else old(forward)
    {
      if rule in forward && rule !in faults.checks {
        return true;
      }
      if rule in faults.adds {
        return false;
      }
      forward := forward + [rule];
      ok := true;
    }

    method EnsurePostrouting(rule: Rule, faults: Faults) returns (ok: bool)
      modifies `postrouting
      ensures ok <==> Ensure(old(postrouting), rule, faults).Some?
      ensures postrouting == if ok then Ensure(old(postrouting), rule, faults).value else old(postrouting)
    {
      if rule in postrouting && rule !in faults.checks {
        return true;
      }
      if rule in faults.adds {
        return false;
      }
      postrouting := postrouting + [rule];
      ok := true;
    }

    method CleanupNatRules(iface: string, egress: string, cidr: string, faults: Faults)
      modifies `forward, `postrouting
      ensures State() == Cleanup(old(State()), NatState(iface, egress, cidr), faults)
    {
      if iface == "" || egress == "" || cidr == "" {
        return;
      }
      postrouting := TryDelete(postrouting, Masquerade(cidr, egress), faults);
      forward := TryDelete(forward, Accept(iface, egress), faults);
      forward := TryDelete(forward, AcceptReturn(egress, iface), faults);
    }

    method InstallRules(iface: string, egress: string, cidr: string, faults: Faults) returns (ok: bool)
      modifies `forward, `postrouting
      ensures (State(), ok) == Install(old(State()), NatState(iface, egress, cidr), faults)
    {
      ok := EnsureForward(Accept(iface, egress), faults);
      if !ok {
        return;
      }
      ok := EnsureForward(AcceptReturn(egress, iface), faults);
      if !ok {
        return;
      }
      ok := EnsurePostrouting(Masquerade(cidr, egress), faults);
    }

    method ReadConfig(env: Env) returns (iface: string, egress: string, cidr: string)
      ensures NatState(iface, egress, cidr) == ConfigOf(env)
    {
      iface := if env.iface == "" then "wg0" else env.iface;
      cidr := if env.wgCIDR == "" then OVERLAY_CIDR else env.wgCIDR;
      egress := env.natEgressIf;
      if egress == "" {
        egress := env.wanIf;
      }
      if egress == "" {
        egress := env.primaryDev;
      }
      if egress == "" {
        egress := iface;
      }
    }

    method EnsureNAT(env: Env, faults: Faults) returns (ok: bool)
      modifies this
      ensures (State(), ok) == EnsureSpec(old(State()), env, faults)
    {
      if env.darwin || ToLower(env.autoNAT) == "false" || !env.hasIptables {
        return true;
      }
      var iface, egress, cidr := ReadConfig(env);
      var prev := if faults.load then NO_STATE else saved;
      if prev.iface != "" && (prev.iface != iface || prev.egress != egress || prev.cidr != cidr) {
        CleanupNatRules(prev.iface, prev.egress, prev.cidr, faults);
      }
      ok := InstallRules(iface, egress, cidr, faults);
      if ok {
        match faults.save {
          case Written => saved := NatState(iface, egress, cidr);
          case KeptOld =>
          case Truncated => saved := NO_STATE;
        }
      }
    }
  }

  // ---- Runs ----

  datatype Call = Call(env: Env, faults: Faults)

  function RunFrom(h: Host, calls: seq<Call>): Host {
    if calls == [] then h else EnsureSpec(RunFrom(h, Init(calls)), Last(calls).env, Last(calls).faults).0
  }

  /** The configuration of the last call that was not switched off. */
  function LastConfig(calls: seq<Call>): Option<NatState> {
    if calls == [] then None
    else if Enabled(Last(calls).env) then Some(ConfigOf(Last(calls).env))
    else LastConfig(Init(calls))
  }

  predicate Foreign(chain: seq<Rule>) {
    forall i :: 0 <= i < |chain| ==> chain[i].Unmanaged?
  }

  /** The host's own rules in their order, then the rules of one configuration, once each. */
  function Managed(forward: seq<Rule>, postrouting: seq<Rule>, c: Option<NatState>): Host {
    match c
    case None => Host(forward, postrouting, NO_STATE)
    case Some(c) => Host(forward + ForwardRules(c), postrouting + [Masquerade(c.cidr, c.egress)], c)
  }

  lemma {:induction false} DeleteAfter(base: seq<Rule>, rule: Rule, rest: seq<Rule>)
    requires rule !in base
    ensures Delete(base + [rule] + rest, rule) == base + rest
  {
    if base != [] {
      assert (base + [rule] + rest)[0] == base[0] && (base + [rule] + rest)[1..] == base[1..] + [rule] + rest;
      DeleteAfter(base[1..], rule, rest);
      assert base + rest == [base[0]] + (base[1..] + rest);
    } else {
      assert ([rule] + rest)[1..] == rest;
    }
  }

  lemma CleanupRemovesManaged(forward: seq<Rule>, postrouting: seq<Rule>, c: NatState)
    requires Foreign(forward) && Foreign(postrouting)
    requires c.iface != "" && c.egress != "" && c.cidr != ""
    ensures Cleanup(Managed(forward, postrouting, Some(c)), c, NO_FAULTS) == Host(forward, postrouting, c)
  {
    var f := ForwardRules(c);
    DeleteAfter(forward, f[0], [f[1]]);
    assert forward + f == forward + [f[0]] + [f[1]];
    DeleteAfter(forward, f[1], []);
    assert forward + [f[1]] == forward + [f[1]] + [];
    DeleteAfter(postrouting, Masquerade(c.cidr, c.egress), []);
    assert postrouting + [Masquerade(c.cidr, c.egress)] + [] == postrouting + [Masquerade(c.cidr, c.egress)];
  }

  lemma InstallAddsManaged(forward: seq<Rule>, postrouting: seq<Rule>, saved: NatState, c: NatState)
    requires Foreign(forward) && Foreign(postrouting)
    ensures var (h, ok) := Install(Host(forward, postrouting, saved), c, NO_FAULTS);
            ok && h.(saved := c) == Managed(forward, postrouting, Some(c))
  {
    var f := ForwardRules(c);
    assert forward + [f[0]] + [f[1]] == forward + f;
    assert f[1] !in forward + [f[0]];
  }

  lemma InstallAgain(forward: seq<Rule>, postrouting: seq<Rule>, c: NatState)
    ensures var m := Managed(forward, postrouting, Some(c)); Install(m, c, NO_FAULTS) == (m, true)
  {
    var f := ForwardRules(c);
    assert (forward + f)[|forward|] == f[0] && (forward + f)[|forward| + 1] == f[1];
    assert (postrouting + [Masquerade(c.cidr, c.egress)])[|postrouting|] == Masquerade(c.cidr, c.egress);
  }

  /**
    Whatever configurations the host went through, with no command and no save failing: the chains hold the host's own
    rules, untouched and in order, followed by the rules of the last configuration, once each.
   */
  lemma {:induction false} ReconcilesToLastConfig(forward: seq<Rule>, postrouting: seq<Rule>, calls: seq<Call>)
    requires Foreign(forward) && Foreign(postrouting)
    requires forall i :: 0 <= i < |calls| ==> calls[i].faults == NO_FAULTS
    ensures RunFrom(Host(forward, postrouting, NO_STATE), calls) == Managed(forward, postrouting, LastConfig(calls))
    ensures LastConfig(calls).Some? ==>
              var c := LastConfig(calls).value; c.iface != "" && c.egress != "" && c.cidr != ""
  {
    if calls != [] {
      ReconcilesToLastConfig(forward, postrouting, Init(calls));
      var before, call := LastConfig(Init(calls)), Last(calls);
      if Enabled(call.env) {
        var c := ConfigOf(call.env);
        match before {
          case None => InstallAddsManaged(forward, postrouting, NO_STATE, c);
          case Some(b) =>
            if b == c {
              InstallAgain(forward, postrouting, c);
            } else {
              CleanupRemovesManaged(forward, postrouting, b);
              InstallAddsManaged(forward, postrouting, b, c);
            }
        }
      }
    }
  }

  lemma TheThreeRules(c: NatState, rule: Rule)
    ensures rule in AllRules(c) <==>
              || rule == Accept(c.iface, c.egress) || rule == AcceptReturn(c.egress, c.iface)
              || rule == Masquerade(c.cidr, c.egress)
  {
    var all := AllRules(c);
    assert all[0] == ForwardRules(c)[0] && all[1] == ForwardRules(c)[1] && all[2] == Masquerade(c.cidr, c.egress);
  }

  /**
    Whatever goes wrong, a call that is not switched off reports success exactly when its three rules
    are in place afterwards, and none of them was overlooked by its check and then could not be added.
   */
  lemma SucceedsIffInstalled(h: Host, env: Env, faults: Faults)
    requires Enabled(env)
    ensures var (h', ok) := EnsureSpec(h, env, faults);
            ok <==> forall rule :: rule in AllRules(ConfigOf(env)) ==>
                      Installed(h', rule) && !(rule in faults.checks && rule in faults.adds)
  {
    var c := ConfigOf(env);
    forall rule
      ensures rule in AllRules(c) <==>
                || rule == Accept(c.iface, c.egress) || rule == AcceptReturn(c.egress, c.iface)
                || rule == Masquerade(c.cidr, c.egress)
    {
      TheThreeRules(c, rule);
    }
  }

  // ---- Rules of other configurations ----

  /** How often the rule is in its chain. */
  function Copies(h: Host, rule: Rule): nat {
    if rule.Masquerade? then multiset(h.postrouting)[rule] else multiset(h.forward)[rule]
  }

  /** A cleanup by the saved state covers the rule; with an empty part it covers none. */
  predicate Known(saved: NatState, rule: Rule) {
    saved.iface != "" && saved.egress != "" && saved.cidr != "" && rule in AllRules(saved)
  }

  /** In a call for another configuration: the state is read, it names the rule, and the deletion works. */
  predicate Removes(h: Host, faults: Faults, rule: Rule) {
    !faults.load && Known(h.saved, rule) && rule !in faults.deletes
  }

  lemma {:induction false} DeletedCopies(chain: seq<Rule>, rule: Rule, other: Rule)
    ensures multiset(Delete(chain, rule))[other] ==
              if other == rule && rule in chain then multiset(chain)[other] - 1 else multiset(chain)[other]
  {
    if chain != [] {
      assert chain == [chain[0]] + chain[1..];
      if chain[0] != rule {
        DeletedCopies(chain[1..], rule, other);
      }
    }
  }

  lemma TryDeletedCopies(chain: seq<Rule>, rule: Rule, other: Rule, faults: Faults)
    ensures multiset(TryDelete(chain, rule, faults))[other] ==
              if other == rule && rule in chain && rule !in faults.deletes then multiset(chain)[other] - 1
              else multiset(chain)[other]
  {
    DeletedCopies(chain, rule, other);
  }

  lemma CleanedCopies(h: Host, c: NatState, faults: Faults, rule: Rule)
    ensures Copies(Cleanup(h, c, faults), rule) ==
              if Known(c, rule) && rule !in faults.deletes && Copies(h, rule) > 0 then Copies(h, rule) - 1
              else Copies(h, rule)
  {
    var f, m := ForwardRules(c), Masquerade(c.cidr, c.egress);
    TheThreeRules(c, rule);
    TryDeletedCopies(h.postrouting, m, rule, faults);
    TryDeletedCopies(h.forward, f[0], rule, faults);
    TryDeletedCopies(TryDelete(h.forward, f[0], faults), f[1], rule, faults);
  }

  lemma EnsuredCopies(chain: seq<Rule>, rule: Rule, other: Rule, faults: Faults)
    requires other != rule
    ensures var r := Ensure(chain, rule, faults); r.Some? ==> multiset(r.value)[other] == multiset(chain)[other]
  {
  }

  lemma InstalledCopies(h: Host, c: NatState, faults: Faults, rule: Rule)
    requires rule !in AllRules(c)
    ensures Copies(Install(h, c, faults).0, rule) == Copies(h, rule)
  {
    var f := ForwardRules(c);
    TheThreeRules(c, rule);
    EnsuredCopies(h.forward, f[0], rule, faults);
    match Ensure(h.forward, f[0], faults) {
      case None =>
      case Some(f1) => EnsuredCopies(f1, f[1], rule, faults);
    }
    EnsuredCopies(h.postrouting, Masquerade(c.cidr, c.egress), rule, faults);
  }

  /** A call leaves a rule of another configuration alone, except that it removes one copy if it can. */
  lemma CopiesAfterCall(h: Host, env: Env, faults: Faults, rule: Rule)
    requires Enabled(env) && rule !in AllRules(ConfigOf(env))
    ensures Copies(EnsureSpec(h, env, faults).0, rule) ==
              if Removes(h, faults, rule) && Copies(h, rule) > 0 then Copies(h, rule) - 1 else Copies(h, rule)
  {
    var c, prev := ConfigOf(env), Loaded(h, faults);
    var cleaned := if prev.iface != "" && prev != c then Cleanup(h, prev, faults) else h;
    CleanedCopies(h, prev, faults, rule);
    InstalledCopies(cleaned, c, faults, rule);
  }

  /** The calls of a run that remove a copy of the rule. */
  function Removals(h: Host, calls: seq<Call>, rule: Rule): nat {
    if calls == [] then 0
    else
      var before, call := RunFrom(h, Init(calls)), Last(calls);
      Removals(h, Init(calls), rule) + if Enabled(call.env) && Removes(before, call.faults, rule) then 1 else 0
  }

  predicate OtherConfigs(calls: seq<Call>, rule: Rule) {
    forall i :: 0 <= i < |calls| && Enabled(calls[i].env) ==> rule !in AllRules(ConfigOf(calls[i].env))
  }

  lemma InstalledIffCopies(h: Host, rule: Rule)
    ensures Installed(h, rule) <==> Copies(h, rule) > 0
  {
  }

  /**
    Over any calls for other configurations, whatever goes wrong in them: a rule is still in place
    if and only if there were more copies of it than calls that knew it and could remove one.
   */
  lemma {:induction false} RuleStaysIff(h: Host, calls: seq<Call>, rule: Rule)
    requires OtherConfigs(calls, rule)
    ensures Copies(RunFrom(h, calls), rule) ==
              if Copies(h, rule) > Removals(h, calls, rule) then Copies(h, rule) - Removals(h, calls, rule) else 0
    ensures Installed(RunFrom(h, calls), rule) <==> Copies(h, rule) > Removals(h, calls, rule)
  {
    if calls != [] {
      RuleStaysIff(h, Init(calls), rule);
      var before, call := RunFrom(h, Init(calls)), Last(calls);
      if Enabled(call.env) {
        CopiesAfterCall(before, call.env, call.faults, rule);
      }
    }
    InstalledIffCopies(RunFrom(h, calls), rule);
  }

  // ---- How rules get lost ----

  /** A rule that is installed and that no cleanup by the saved state covers. */
  ghost predicate Orphan(h: Host, rule: Rule) {
    Installed(h, rule) && !Known(h.saved, rule)
  }

  lemma ConfigIsKnown(env: Env, rule: Rule)
    requires rule in AllRules(ConfigOf(env))
    ensures Known(ConfigOf(env), rule)
  {
  }

  /**
    What a call leaves behind without being able to find it again. Of its own configuration: what it installed while
    the state was not written, unless the old state is kept and names the rule. Of another one: what it did not remove,
    if the state did not name it or does no longer.
   */
  lemma OrphanedIff(h: Host, env: Env, faults: Faults, rule: Rule)
    requires Enabled(env)
    ensures var (h', ok) := EnsureSpec(h, env, faults);
            Orphan(h', rule) <==>
              if rule in AllRules(ConfigOf(env)) then
                if ok then faults.save == Truncated || (faults.save == KeptOld && !Known(h.saved, rule))
                else Installed(h', rule) && !Known(h.saved, rule)
              else
                && Copies(h, rule) > (if Removes(h, faults, rule) then 1 else 0)
                && (!Known(h.saved, rule) || (ok && faults.save != KeptOld))
  {
    var (h', ok) := EnsureSpec(h, env, faults);
    if rule in AllRules(ConfigOf(env)) {
      SucceedsIffInstalled(h, env, faults);
      ConfigIsKnown(env, rule);
    } else {
      CopiesAfterCall(h, env, faults, rule);
      InstalledIffCopies(h', rule);
    }
  }

  /** A deletion that fails is enough: the call succeeds, and the state it writes no longer names the rule. */
  lemma FailedDeletionOrphans(h: Host, env: Env, rule: Rule)
    requires Enabled(env) && Installed(h, rule) && Known(h.saved, rule) && rule !in AllRules(ConfigOf(env))
    ensures var (h', ok) := EnsureSpec(h, env, NO_FAULTS.(deletes := {rule}));
            ok && h'.saved == ConfigOf(env) && Orphan(h', rule)
  {
    OrphanedIff(h, env, NO_FAULTS.(deletes := {rule}), rule);
    InstalledIffCopies(h, rule);
  }

  /** A lost rule stays lost, and in place, whatever calls for other configurations follow. */
  lemma {:induction false} LostRulesStay(h: Host, calls: seq<Call>, rule: Rule)
    requires Orphan(h, rule) && OtherConfigs(calls, rule)
    ensures Orphan(RunFrom(h, calls), rule)
  {
    if calls != [] {
      LostRulesStay(h, Init(calls), rule);
      var before, call := RunFrom(h, Init(calls)), Last(calls);
      if Enabled(call.env) {
        InstalledIffCopies(before, rule);
        OrphanedIff(before, call.env, call.faults, rule);
      }
    }
  }
}
