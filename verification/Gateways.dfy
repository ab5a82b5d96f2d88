/**
 The table of public gateways built from the configured domain lists, and the
 safelist that decides which domains may use DNSLink.
 */
module Gateways {
  import opened Wrappers
  import opened Text

  datatype Config = Config(
    gateway: seq<string>,
    subdomain: seq<string>,
    trustless: seq<string>,
    dnslink: seq<string>,
    conformance: bool       // GATEWAY_CONFORMANCE_TEST
  )

  datatype Gateway = Gateway(
    paths: seq<string>,
    noDNSLink: bool,
    inlineDNSLink: bool,
    deserializedResponses: bool,
    useSubdomains: bool
  )

  const ALL_PATHS := ["/ipfs", "/ipns", "/version"]

  // ----- DNSLink policy -----

  /** The test the code makes on the characters of the two names. */
  predicate Matches(domain: string, allowed: string) {
    domain == allowed || HasSuffix(domain, "." + allowed)
  }

  predicate Allowed(safelist: seq<string>, domain: string) {
    |safelist| == 0 || exists i :: 0 <= i < |safelist| && Matches(domain, safelist[i])
  }

  method IsDNSLinkAllowed(safelist: seq<string>, domain: string) returns (b: bool)
    ensures b == Allowed(safelist, domain)
    ensures b <==> (|safelist| == 0 || exists i :: 0 <= i < |safelist| && LabelSuffix(domain, safelist[i]))
  {
    forall i | 0 <= i < |safelist| { MatchesIffLabelSuffix(domain, safelist[i]); }
    if |safelist| == 0 {
      return true;
    }
    for i := 0 to |safelist|
      invariant forall j :: 0 <= j < i ==> !Matches(domain, safelist[j])
    {
      if domain == safelist[i] {
        return true;
      }
      if HasSuffix(domain, "." + safelist[i]) {
        return true;
      }
    }
    return false;
  }

  function Labels(domain: string): seq<string> { Split(domain, '.') }

  ghost predicate LabelSuffix(domain: string, allowed: string) {
    exists k: nat :: k <= |Labels(domain)| && Labels(domain)[k..] == Labels(allowed)
  }

  lemma LabelsOfJoined(pre: string, post: string)
    ensures Labels(pre + "." + post) == Labels(pre) + Labels(post)
  {
    JoinOfSplit(pre, '.');
    JoinOfSplit(post, '.');
    JoinAppend(Labels(pre), Labels(post), '.');
    SplitOfJoin(Labels(pre) + Labels(post), '.');
  }

  lemma MatchGivesLabels(domain: string, allowed: string)
    requires Matches(domain, allowed)
    ensures LabelSuffix(domain, allowed)
  {
    if domain == allowed {
      assert Labels(domain)[0..] == Labels(allowed);
    } else {
      var pre := domain[..|domain| - |allowed| - 1];
      assert domain == pre + ("." + allowed) == pre + "." + allowed;
      LabelsOfJoined(pre, allowed);
      assert Labels(domain)[|Labels(pre)|..] == Labels(allowed);
    }
  }

  lemma LabelsGiveMatch(domain: string, allowed: string, k: nat)
    requires k <= |Labels(domain)| && Labels(domain)[k..] == Labels(allowed)
    ensures Matches(domain, allowed)
  {
    JoinOfSplit(domain, '.');
    JoinOfSplit(allowed, '.');
    var labels := Labels(domain);
    if k == 0 {
      assert labels[0..] == labels;
    } else {
      JoinAppend(labels[..k], labels[k..], '.');
      assert labels[..k] + labels[k..] == labels;
      assert domain == Join(labels[..k], '.') + ("." + allowed);
    }
  }

  /** The character test holds exactly when the allowed name's labels end the domain's labels. */
  lemma MatchesIffLabelSuffix(domain: string, allowed: string)
    ensures Matches(domain, allowed) <==> LabelSuffix(domain, allowed)
  {
    if Matches(domain, allowed) {
      MatchGivesLabels(domain, allowed);
    } else if LabelSuffix(domain, allowed) {
      var k: nat :| k <= |Labels(domain)| && Labels(domain)[k..] == Labels(allowed);
      LabelsGiveMatch(domain, allowed, k);
    }
  }

  lemma SuffixOfSuffix(x: seq<string>, y: seq<string>, z: seq<string>, k: nat, j: nat)
    requires k <= |x| && x[k..] == y && j <= |y| && y[j..] == z
    ensures k + j <= |x| && x[k + j..] == z
  {
  }

  lemma LabelSuffixIsTransitive(below: string, domain: string, allowed: string)
    requires LabelSuffix(below, domain) && LabelSuffix(domain, allowed)
    ensures LabelSuffix(below, allowed)
  {
    var k: nat :| k <= |Labels(below)| && Labels(below)[k..] == Labels(domain);
    var j: nat :| j <= |Labels(domain)| && Labels(domain)[j..] == Labels(allowed);
    SuffixOfSuffix(Labels(below), Labels(domain), Labels(allowed), k, j);
  }

  /** The helper allows everything below a domain it allows; `DNSLinkIff` says what the gateway makes of that. */
  lemma AllowedBelow(safelist: seq<string>, domain: string, below: string)
    requires Allowed(safelist, domain) && LabelSuffix(below, domain)
    ensures Allowed(safelist, below)
  {
    if |safelist| > 0 {
      var i :| 0 <= i < |safelist| && Matches(domain, safelist[i]);
      MatchesIffLabelSuffix(domain, safelist[i]);
      LabelSuffixIsTransitive(below, domain, safelist[i]);
      MatchesIffLabelSuffix(below, safelist[i]);
    }
  }

  /** A longer safelist allows more, unless it starts from none at all, which allows everything. */
  lemma AllowedGrows(less: seq<string>, more: seq<string>, domain: string)
    requires |less| > 0 && (forall d :: d in less ==> d in more) && Allowed(less, domain)
    ensures Allowed(more, domain)
  {
    var i :| 0 <= i < |less| && Matches(domain, less[i]);
    assert less[i] in more;
  }

  // ----- Declarative meaning of the table -----

  /** What a domain maps to once these lists have been gone through. */
  function LookupAt(cfg: Config, gateway: seq<string>, subdomain: seq<string>, trustless: seq<string>,
                    conformance: bool, dnslink: seq<string>, d: string): Option<Gateway>
  {
    var noDNSLink := !Allowed(cfg.dnslink, d);
    if conformance && d == "example.com" then Some(Gateway(["/ipfs", "/ipns"], noDNSLink, true, true, true))
    else if d in trustless then Some(Gateway(ALL_PATHS, true, true, false, d in cfg.subdomain))
    else if d in subdomain then Some(Gateway(ALL_PATHS, noDNSLink, true, true, true))
    else if d in gateway then Some(Gateway(ALL_PATHS, noDNSLink, true, true, false))
    else if d == "localhost" then Some(Gateway(ALL_PATHS, |cfg.dnslink| > 0, conformance, true, true))
    else if d in dnslink then Some(Gateway(ALL_PATHS, false, true, true, false))
    else None
  }

  function Lookup(cfg: Config, d: string): Option<Gateway> {
    LookupAt(cfg, cfg.gateway, cfg.subdomain, cfg.trustless, cfg.conformance, cfg.dnslink, d)
  }

  // ----- Building the table -----

  class PublicGateway {
    var paths: seq<string>
    var noDNSLink: bool
    var inlineDNSLink: bool
    var deserializedResponses: bool
    var useSubdomains: bool

    constructor (g: Gateway)
      ensures View() == g
    {
      paths, noDNSLink, inlineDNSLink := g.paths, g.noDNSLink, g.inlineDNSLink;
      deserializedResponses, useSubdomains := g.deserializedResponses, g.useSubdomains;
    }

    function View(): Gateway
      reads this
    {
      Gateway(paths, noDNSLink, inlineDNSLink, deserializedResponses, useSubdomains)
    }
  }

  type Table = map<string, PublicGateway>

  /** The structs a table points to. */
  ghost function Structs(table: Table): set<PublicGateway> { set d | d in table :: table[d] }

  /** No struct is reachable from two domains. */
  ghost predicate Unshared(table: Table) {
    forall c, d :: c in table && d in table && c != d ==> table[c] != table[d]
  }

  ghost function Entry(table: Table, d: string): Option<Gateway>
    reads Structs(table)
  {
    if d in table then Some(table[d].View()) else None
  }

  /** The table is what `LookupAt` says. */
  ghost predicate Shows(table: Table, cfg: Config, gateway: seq<string>, subdomain: seq<string>, trustless: seq<string>,
                        conformance: bool, dnslink: seq<string>)
    reads Structs(table)
  {
    forall d :: Entry(table, d) == LookupAt(cfg, gateway, subdomain, trustless, conformance, dnslink, d)
  }

  lemma InOneMore(list: seq<string>, i: nat)
    requires i < |list|
    ensures forall d :: d in list[..i + 1] <==> d in list[..i] || d == list[i]
  {
    assert list[..i + 1] == list[..i] + [list[i]];
  }

  /** Points `domain` to a new struct. */
  method Put(start: Table, domain: string, g: Gateway) returns (table: Table)
    requires Unshared(start)
    ensures Unshared(table) && fresh(Structs(table) - Structs(start))
    ensures forall d :: Entry(table, d) == (if d == domain then Some(g) else Entry(start, d))
  {
    var struct := new PublicGateway(g);
    table := start[domain := struct];
  }

  method AddGateways(cfg: Config, start: Table) returns (table: Table)
    requires Unshared(start) && Shows(start, cfg, [], [], [], false, [])
    ensures Unshared(table) && Shows(table, cfg, cfg.gateway, [], [], false, [])
    ensures fresh(Structs(table) - Structs(start))
  {
    table := start;
    assert cfg.gateway[..0] == [];
    for i := 0 to |cfg.gateway|
      invariant Unshared(table) && Shows(table, cfg, cfg.gateway[..i], [], [], false, [])
      invariant fresh(Structs(table) - Structs(start))
    {
      var domain := cfg.gateway[i];
      InOneMore(cfg.gateway, i);
      var ok := IsDNSLinkAllowed(cfg.dnslink, domain);
      table := Put(table, domain, Gateway(ALL_PATHS, !ok, true, true, false));
    }
    assert cfg.gateway[..|cfg.gateway|] == cfg.gateway;
  }

  method AddSubdomains(cfg: Config, start: Table) returns (table: Table)
    requires Unshared(start) && Shows(start, cfg, cfg.gateway, [], [], false, [])
    ensures Unshared(table) && Shows(table, cfg, cfg.gateway, cfg.subdomain, [], false, [])
    ensures fresh(Structs(table) - Structs(start))
  {
    table := start;
    assert cfg.subdomain[..0] == [];
    for i := 0 to |cfg.subdomain|
      invariant Unshared(table) && Shows(table, cfg, cfg.gateway, cfg.subdomain[..i], [], false, [])
      invariant fresh(Structs(table) - Structs(start))
    {
      var domain := cfg.subdomain[i];
      InOneMore(cfg.subdomain, i);
      var ok := IsDNSLinkAllowed(cfg.dnslink, domain);
      table := Put(table, domain, Gateway(ALL_PATHS, !ok, true, true, true));
    }
    assert cfg.subdomain[..|cfg.subdomain|] == cfg.subdomain;
  }

  method AddTrustless(cfg: Config, start: Table) returns (table: Table)
    requires Unshared(start) && Shows(start, cfg, cfg.gateway, cfg.subdomain, [], false, [])
    ensures Unshared(table) && Shows(table, cfg, cfg.gateway, cfg.subdomain, cfg.trustless, false, [])
    ensures fresh(Structs(table) - Structs(start))
  {
    table := start;
    assert cfg.trustless[..0] == [];
    for i := 0 to |cfg.trustless|
      invariant Unshared(table) && Shows(table, cfg, cfg.gateway, cfg.subdomain, cfg.trustless[..i], false, [])
      invariant fresh(Structs(table) - Structs(start))
    {
      var domain := cfg.trustless[i];
      InOneMore(cfg.trustless, i);
      table := Put(table, domain, Gateway(ALL_PATHS, true, true, false, domain in cfg.subdomain));
    }
    assert cfg.trustless[..|cfg.trustless|] == cfg.trustless;
  }

  lemma LookupOneMore(cfg: Config, i: nat)
    requires i < |cfg.dnslink|
    ensures forall d {:trigger LookupUpTo(cfg, i + 1, d)} :: LookupUpTo(cfg, i + 1, d) ==
              (if d == cfg.dnslink[i] && LookupUpTo(cfg, i, d).None?
               then Some(Gateway(ALL_PATHS, false, true, true, false)) else LookupUpTo(cfg, i, d))
  {
    InOneMore(cfg.dnslink, i);
  }

  /** What the table shows when the safelist has been gone through up to `i`. */
  function LookupUpTo(cfg: Config, i: nat, d: string): Option<Gateway>
    requires i <= |cfg.dnslink|
  {
    LookupAt(cfg, cfg.gateway, cfg.subdomain, cfg.trustless, cfg.conformance, cfg.dnslink[..i], d)
  }

  method AddDNSLinkOnly(cfg: Config, start: Table) returns (table: Table)
    requires Unshared(start) && Shows(start, cfg, cfg.gateway, cfg.subdomain, cfg.trustless, cfg.conformance, [])
    ensures Unshared(table)
    ensures Shows(table, cfg, cfg.gateway, cfg.subdomain, cfg.trustless, cfg.conformance, cfg.dnslink)
    ensures fresh(Structs(table) - Structs(start))
  {
    table := start;
    assert cfg.dnslink[..0] == [];
    for i := 0 to |cfg.dnslink|
      invariant Unshared(table) && forall d :: Entry(table, d) == LookupUpTo(cfg, i, d)
      invariant fresh(Structs(table) - Structs(start))
    {
      var domain := cfg.dnslink[i];
      InOneMore(cfg.dnslink, i);
      LookupOneMore(cfg, i);
      if domain !in table {
        table := Put(table, domain, Gateway(ALL_PATHS, false, true, true, false));
      }
    }
    assert cfg.dnslink[..|cfg.dnslink|] == cfg.dnslink;
  }

  /** The only write through a pointer: localhost's entry, whichever list it came from. */
  method InlineLocalhost(table: Table)
    requires Unshared(table) && "localhost" in table
    modifies table["localhost"]
    ensures forall d :: Entry(table, d) ==
              (if d == "localhost" then Some(old(table["localhost"].View()).(inlineDNSLink := true))
               else old(Entry(table, d)))
  {
    table["localhost"].inlineDNSLink := true;
  }

  /** What the conformance mode changes in the meaning of the table. */
  lemma LookupConforms(cfg: Config, d: string)
    ensures LookupAt(cfg, cfg.gateway, cfg.subdomain, cfg.trustless, true, [], d) ==
            var before := LookupAt(cfg, cfg.gateway, cfg.subdomain, cfg.trustless, false, [], d);
            if d == "example.com" then
              Some(Gateway(["/ipfs", "/ipns"], !Allowed(cfg.dnslink, "example.com"), true, true, true))
            else if d == "localhost" && before.Some? then Some(before.value.(inlineDNSLink := true))
            else before
  {
    assert |"example.com"| != |"localhost"|;
  }

  method Conform(cfg: Config, start: Table) returns (table: Table)
    requires Unshared(start) && Shows(start, cfg, cfg.gateway, cfg.subdomain, cfg.trustless, false, [])
    modifies Structs(start)
    ensures Unshared(table) && Shows(table, cfg, cfg.gateway, cfg.subdomain, cfg.trustless, cfg.conformance, [])
    ensures fresh(Structs(table) - Structs(start))
  {
    table := start;
    if cfg.conformance {
      var ok := IsDNSLinkAllowed(cfg.dnslink, "example.com");
      table := Put(table, "example.com", Gateway(["/ipfs", "/ipns"], !ok, true, true, true));
      assert Entry(table, "localhost").Some?;
      InlineLocalhost(table);
      forall d { LookupConforms(cfg, d); }
    }
  }

  method StartTable(cfg: Config) returns (table: Table)
    ensures Unshared(table) && fresh(Structs(table)) && Shows(table, cfg, [], [], [], false, [])
  {
    table := Put(map[], "localhost", Gateway(ALL_PATHS, |cfg.dnslink| > 0, false, true, true));
  }

  /** Whether the gateway resolves DNSLink for `d`: hosts without an entry fall back on the global flag. */
  predicate Resolves(cfg: Config, d: string) {
    match Lookup(cfg, d)
    case Some(g) => !g.noDNSLink
    case None => |cfg.dnslink| == 0
  }

  /** The table, built in the order of the configuration code, and the global flag beside it. */
  method BuildTable(cfg: Config) returns (table: Table, noDNSLink: bool)
    ensures forall d :: Entry(table, d) == Lookup(cfg, d)
    ensures Unshared(table) && fresh(Structs(table))
    ensures forall d :: Resolves(cfg, d) <==> if d in table then !table[d].noDNSLink else !noDNSLink
  {
    table := StartTable(cfg);
    table := AddGateways(cfg, table);
    table := AddSubdomains(cfg, table);
    table := AddTrustless(cfg, table);
    table := Conform(cfg, table);
    table := AddDNSLinkOnly(cfg, table);
    noDNSLink := |cfg.dnslink| > 0;
    forall d ensures Resolves(cfg, d) <==> if d in table then !table[d].noDNSLink else !noDNSLink {
      assert Entry(table, d) == Lookup(cfg, d);
    }
  }

  // ----- What the table promises -----

  ghost predicate SameElements(a: seq<string>, b: seq<string>) {
    forall d :: d in a <==> d in b
  }

  /** Order and repetition in the lists do not matter. */
  lemma OnlyElementsMatter(a: Config, b: Config, d: string)
    requires SameElements(a.gateway, b.gateway) && SameElements(a.subdomain, b.subdomain)
    requires SameElements(a.trustless, b.trustless) && SameElements(a.dnslink, b.dnslink)
    requires a.conformance == b.conformance
    ensures Lookup(a, d) == Lookup(b, d)
  {
    assert |a.dnslink| == 0 <==> |b.dnslink| == 0 by {
      if |a.dnslink| > 0 { assert a.dnslink[0] in b.dnslink; }
      if |b.dnslink| > 0 { assert b.dnslink[0] in a.dnslink; }
    }
    forall name: string ensures Allowed(a.dnslink, name) <==> Allowed(b.dnslink, name) {
      if |a.dnslink| > 0 {
        if Allowed(a.dnslink, name) { AllowedGrows(a.dnslink, b.dnslink, name); }
        if Allowed(b.dnslink, name) { AllowedGrows(b.dnslink, a.dnslink, name); }
      }
    }
  }

  /**
   A trustless domain never deserializes and never resolves DNSLink, whatever
   the other lists say; the one exception is example.com in conformance mode.
   */
  lemma TrustlessIsTrustless(cfg: Config, d: string)
    requires d in cfg.trustless
    ensures Lookup(cfg, d).Some?
    ensures !Lookup(cfg, d).value.deserializedResponses <==> !(cfg.conformance && d == "example.com")
    ensures !(cfg.conformance && d == "example.com") ==> Lookup(cfg, d).value.noDNSLink
  {
  }

  /** The domains with an entry in the table. */
  predicate Listed(cfg: Config, d: string) {
    || d in cfg.gateway || d in cfg.subdomain || d in cfg.trustless || d in cfg.dnslink
    || d == "localhost" || (cfg.conformance && d == "example.com")
  }

  lemma ListedIff(cfg: Config, d: string)
    ensures Lookup(cfg, d).Some? <==> Listed(cfg, d)
  {
  }

  /**
   What an entry serves besides DNSLink.  Subdomains: the subdomain gateways,
   trustless or not, example.com in conformance mode, and a localhost that no
   other list but the safelist names.
   */
  lemma EntriesServe(cfg: Config, d: string)
    requires Listed(cfg, d)
    ensures Lookup(cfg, d).Some?
    ensures var g := Lookup(cfg, d).value;
            var conforms := cfg.conformance && d == "example.com";
            && (g.useSubdomains <==>
                  d in cfg.subdomain || conforms || (d == "localhost" && d !in cfg.trustless && d !in cfg.gateway))
            && (g.inlineDNSLink <==>
                  d != "localhost" || d in cfg.gateway || d in cfg.subdomain || d in cfg.trustless || cfg.conformance)
            && (g.deserializedResponses <==> conforms || d !in cfg.trustless)
            && g.paths == if conforms then ["/ipfs", "/ipns"] else ["/ipfs", "/ipns", "/version"]
  {
  }

  /**
   The domains kept from DNSLink whatever the safelist says of them: trustless
   ones, a localhost that no other list mentions once there is a safelist, and
   every domain without an entry once there is one.
   */
  predicate KeptFromDNSLink(cfg: Config, d: string) {
    if Listed(cfg, d) then
      || (d in cfg.trustless && !(cfg.conformance && d == "example.com"))
      || (d == "localhost" && d !in cfg.subdomain && d !in cfg.gateway && |cfg.dnslink| > 0)
    else
      |cfg.dnslink| > 0
  }

  /**
   Which domains resolve DNSLink: those the safelist allows and that are not
   kept from it.  The safelist alone decides for all the others.
   */
  lemma DNSLinkIff(cfg: Config, d: string)
    ensures Resolves(cfg, d) <==> Allowed(cfg.dnslink, d) && !KeptFromDNSLink(cfg, d)
  {
    ListedIff(cfg, d);
    if d in cfg.dnslink {
      var i :| 0 <= i < |cfg.dnslink| && cfg.dnslink[i] == d;
      assert Matches(d, cfg.dnslink[i]);
    }
  }

  /** A safelisted domain that is neither trustless nor localhost has an entry and resolves DNSLink. */
  lemma SafelistedDomainsResolve(cfg: Config, d: string)
    requires d in cfg.dnslink && d !in cfg.trustless && d != "localhost"
    ensures Lookup(cfg, d).Some? && Resolves(cfg, d)
  {
    DNSLinkIff(cfg, d);
    var i :| 0 <= i < |cfg.dnslink| && cfg.dnslink[i] == d;
    assert Matches(d, cfg.dnslink[i]);
  }

  /** Without a safelist every domain resolves DNSLink but the trustless ones. */
  lemma WithoutSafelistAllResolve(cfg: Config, d: string)
    requires |cfg.dnslink| == 0 && d !in cfg.trustless
    ensures Resolves(cfg, d)
  {
    DNSLinkIff(cfg, d);
  }

  /** A subdomain of a safelisted domain resolves DNSLink exactly when a list names it and it is not kept from it. */
  lemma SubdomainsNeedEntries(cfg: Config, d: string, below: string)
    requires d in cfg.dnslink && LabelSuffix(below, d)
    ensures Allowed(cfg.dnslink, below)
    ensures Resolves(cfg, below) <==> Listed(cfg, below) && !KeptFromDNSLink(cfg, below)
  {
    var i :| 0 <= i < |cfg.dnslink| && cfg.dnslink[i] == d;
    assert Matches(d, cfg.dnslink[i]);
    AllowedBelow(cfg.dnslink, d, below);
    DNSLinkIff(cfg, below);
  }

  /** The subdomain of the documentation's own example is refused. */
  lemma SubdomainIsRefused()
    ensures var cfg := Config([], [], [], ["example.com"], false);
            && Allowed(cfg.dnslink, "sub.example.com")
            && Lookup(cfg, "sub.example.com").None? && !Resolves(cfg, "sub.example.com")
  {
    var cfg := Config([], [], [], ["example.com"], false);
    assert "sub.example.com"[3..] == "." + "example.com";
    assert Matches("sub.example.com", cfg.dnslink[0]);
    assert |"sub.example.com"| != |"example.com"| && |"sub.example.com"| != |"localhost"|;
  }

  /** A localhost or a trustless domain in the safelist is refused, too. */
  lemma ListedDomainsAreRefused()
    ensures var cfg := Config([], [], [], ["localhost"], false);
            Allowed(cfg.dnslink, "localhost") && !Resolves(cfg, "localhost")
    ensures var cfg := Config([], [], ["example.com"], ["example.com"], false);
            Allowed(cfg.dnslink, "example.com") && !Resolves(cfg, "example.com")
  {
    assert Matches("localhost", Config([], [], [], ["localhost"], false).dnslink[0]);
    assert Matches("example.com", Config([], [], ["example.com"], ["example.com"], false).dnslink[0]);
  }
}
