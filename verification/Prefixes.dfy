/** pkg/policy: the destination prefixes of a rule, against one snapshot of the name and GeoIP sources. */
module Prefixes {
  import opened Seqs
  import opened Text
  import opened Model

  /** What the network and Go's address parsers answer during one render; `isV4` holds of CIDRs of version 4. */
  datatype Resolver = Resolver(
    geoip: (string, bool) -> seq<string>,
    dns: string -> seq<string>,
    isCIDR: string -> bool,
    isV4: string -> bool,
    parseIP: string -> Option<string>)

  function PrefixCandidates(prefix: string, r: Resolver): seq<string> {
    var lower := ToLower(prefix);
    if prefix == "" then []
    else if HasPrefix(lower, "geoip6:") then r.geoip(lower[|"geoip6:"|..], true)
    else if HasPrefix(lower, "geoip:") then r.geoip(lower[|"geoip:"|..], false)
    else
      var pfx := if '/' in prefix then prefix else prefix + "/32";
      if r.isCIDR(pfx) then [pfx]
      else
        match r.parseIP(prefix)
        case Some(ip) => [ip + "/32"]
        case None => []
  }

  function HostRoutes(ips: seq<string>): seq<string> {
    seq(|ips|, i requires 0 <= i < |ips| => ips[i] + "/32")
  }

  function DomainCandidates(domains: seq<string>, r: Resolver): seq<string> {
    if domains == [] then []
    else DomainCandidates(Init(domains), r) + HostRoutes(r.dns(Last(domains)))
  }

  function NonEmpty(xs: seq<string>): seq<string> {
    if xs == [] then []
    else NonEmpty(Init(xs)) + if Last(xs) == "" then [] else [Last(xs)]
  }

  lemma {:induction false} NonEmptyConcat(xs: seq<string>, ys: seq<string>)
    ensures NonEmpty(xs + ys) == NonEmpty(xs) + NonEmpty(ys)
  {
    if ys == [] {
      assert xs + ys == xs;
    } else {
      NonEmptyConcat(xs, Init(ys));
      assert Init(xs + ys) == xs + Init(ys);
    }
  }

  lemma {:induction false} NonEmptyMembers(xs: seq<string>)
    ensures forall p :: p in NonEmpty(xs) <==> p in xs && p != ""
  {
    if xs != [] {
      NonEmptyMembers(Init(xs));
      assert xs == Init(xs) + [Last(xs)];
    }
  }

  function Candidates(prefix: string, domains: seq<string>, r: Resolver): seq<string> {
    PrefixCandidates(prefix, r) + DomainCandidates(domains, r)
  }

  /** Every prefix the destination part of a rule stands for: first occurrences, no empty text. */
  function TargetsOf(prefix: string, domains: seq<string>, r: Resolver): seq<string> {
    AppendNew([], NonEmpty(Candidates(prefix, domains, r)))
  }

  function Targets(pr: PolicyRule, r: Resolver): seq<string> {
    if pr.Valid() then TargetsOf(pr.prefix, pr.domains, r) else []
  }

  /** The destinations of a rule are the non-empty candidates, each once. */
  lemma TargetsFacts(pr: PolicyRule, r: Resolver)
    ensures NoDup(Targets(pr, r))
    ensures forall p :: p in Targets(pr, r) <==>
              pr.Valid() && p != "" && p in Candidates(pr.prefix, pr.domains, r)
  {
    var cs := Candidates(pr.prefix, pr.domains, r);
    AppendNewFacts([], NonEmpty(cs));
    NonEmptyMembers(cs);
  }

  lemma {:induction false} DomainMembers(domains: seq<string>, r: Resolver, t: string)
    ensures t in DomainCandidates(domains, r) <==> exists d, ip :: d in domains && ip in r.dns(d) && t == ip + "/32"
  {
    if domains != [] {
      var d := Last(domains);
      DomainMembers(Init(domains), r, t);
      assert domains == Init(domains) + [d];
      if t in HostRoutes(r.dns(d)) {
        var i :| 0 <= i < |r.dns(d)| && HostRoutes(r.dns(d))[i] == t;
        assert d in domains && r.dns(d)[i] in r.dns(d);
      }
      if ip :| ip in r.dns(d) && t == ip + "/32" {
        var i :| 0 <= i < |r.dns(d)| && r.dns(d)[i] == ip;
        assert HostRoutes(r.dns(d))[i] == t;
      }
    }
  }

  /** The rule's prefix is an address or a CIDR, not the name of a GeoIP list. */
  predicate Plain(prefix: string) {
    prefix != "" && !HasPrefix(ToLower(prefix), "geoip:") && !HasPrefix(ToLower(prefix), "geoip6:")
  }

  /** A plain prefix with the mask that is added to a bare address. */
  function Masked(prefix: string): string {
    if '/' in prefix then prefix else prefix + "/32"
  }

  lemma PrefixMembers(prefix: string, r: Resolver, t: string)
    ensures t in PrefixCandidates(prefix, r) <==>
              || (Plain(prefix) && t == Masked(prefix) && r.isCIDR(t))
              || (Plain(prefix) && !r.isCIDR(Masked(prefix))
                  && exists ip :: r.parseIP(prefix) == Some(ip) && t == ip + "/32")
              || (HasPrefix(ToLower(prefix), "geoip:") && t in r.geoip(ToLower(prefix)[6..], false))
              || (HasPrefix(ToLower(prefix), "geoip6:") && t in r.geoip(ToLower(prefix)[7..], true))
  {
    var lower := ToLower(prefix);
    if HasPrefix(lower, "geoip:") {
      assert lower[5] == "geoip:"[5];
    }
    if HasPrefix(lower, "geoip6:") {
      assert lower[5] == "geoip6:"[5];
    }
  }

  /**
    What a rule covers: an accepted CIDR as it is given; a bare address with /32; else what the address parser makes of
    it, with /32; a GeoIP list of version 4 or 6; and the addresses of the listed domains, with /32.
   */
  lemma TargetIff(pr: PolicyRule, r: Resolver, t: string)
    ensures t in Targets(pr, r) <==>
              && t != ""
              && (pr.prefix != "" || pr.domains != []) && (pr.viaNode != "" || pr.path != [])
              && (|| (Plain(pr.prefix) && '/' in pr.prefix && t == pr.prefix && r.isCIDR(t))
                  || (Plain(pr.prefix) && '/' !in pr.prefix && t == pr.prefix + "/32" && r.isCIDR(t))
                  || (Plain(pr.prefix) && !r.isCIDR(Masked(pr.prefix))
                      && exists ip :: r.parseIP(pr.prefix) == Some(ip) && t == ip + "/32")
                  || (HasPrefix(ToLower(pr.prefix), "geoip:") && t in r.geoip(ToLower(pr.prefix)[6..], false))
                  || (HasPrefix(ToLower(pr.prefix), "geoip6:") && t in r.geoip(ToLower(pr.prefix)[7..], true))
                  || exists d, ip :: d in pr.domains && ip in r.dns(d) && t == ip + "/32")
  {
    TargetsFacts(pr, r);
    PrefixMembers(pr.prefix, r, t);
    DomainMembers(pr.domains, r, t);
  }

  /** The local closure `add` of Expand, applied to a batch. */
  method AddAll(out: seq<string>, seen: set<string>, batch: seq<string>) returns (out': seq<string>, seen': set<string>)
    requires forall p :: p in seen <==> p in out
    ensures out' == AppendNew(out, NonEmpty(batch))
    ensures forall p :: p in seen' <==> p in out'
  {
    out', seen' := out, seen;
    for i := 0 to |batch|
      invariant out' == AppendNew(out, NonEmpty(batch[..i]))
      invariant forall p :: p in seen' <==> p in out'
    {
      ghost var before := NonEmpty(batch[..i]);
      assert Init(batch[..i + 1]) == batch[..i];
      if batch[i] == "" {
        assert NonEmpty(batch[..i + 1]) == before + [] == before;
      } else {
        assert NonEmpty(batch[..i + 1]) == before + [batch[i]];
        assert Init(before + [batch[i]]) == before;
        if batch[i] !in seen' {
          seen' := seen' + {batch[i]};
          out' := out' + [batch[i]];
        }
      }
    }
    assert batch[..|batch|] == batch;
  }

  /** What has been added once the first `i` domains are resolved. */
  function Added(pr: PolicyRule, i: nat, r: Resolver): seq<string>
    requires i <= |pr.domains|
  {
    AppendNew([], NonEmpty(Candidates(pr.prefix, pr.domains[..i], r)))
  }

  lemma AddedStart(pr: PolicyRule, r: Resolver)
    ensures Added(pr, 0, r) == AppendNew([], NonEmpty(PrefixCandidates(pr.prefix, r)))
  {
    assert Candidates(pr.prefix, pr.domains[..0], r) == PrefixCandidates(pr.prefix, r);
  }

  lemma AddedStep(pr: PolicyRule, i: nat, r: Resolver)
    requires i < |pr.domains|
    ensures Added(pr, i + 1, r) == AppendNew(Added(pr, i, r), NonEmpty(HostRoutes(r.dns(pr.domains[i]))))
  {
    var done, batch := Candidates(pr.prefix, pr.domains[..i], r), HostRoutes(r.dns(pr.domains[i]));
    assert Init(pr.domains[..i + 1]) == pr.domains[..i];
    assert Candidates(pr.prefix, pr.domains[..i + 1], r) == done + batch;
    NonEmptyConcat(done, batch);
    AppendNewConcat([], NonEmpty(done), NonEmpty(batch));
  }

  method Expand(pr: PolicyRule, r: Resolver) returns (out: seq<string>)
    ensures out == Targets(pr, r)
  {
    out := [];
    if !pr.Valid() {
      return;
    }
    var seen: set<string> := {};
    out, seen := AddAll(out, seen, PrefixCandidates(pr.prefix, r));
    AddedStart(pr, r);
    for i := 0 to |pr.domains|
      invariant out == Added(pr, i, r)
      invariant forall p :: p in seen <==> p in out
    {
      AddedStep(pr, i, r);
      out, seen := AddAll(out, seen, HostRoutes(r.dns(pr.domains[i])));
    }
    assert pr.domains[..|pr.domains|] == pr.domains;
  }
}
