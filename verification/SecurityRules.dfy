/**
 `group_rules`, `_covers` and `missing_rules` of packages/cli/canyonos/aws_provision.py:
 which inbound rules an existing security group still lacks. The source compares rules
 field by field; the reference is the TCP traffic a rule lets in.
 */
module SecurityRules {
  import opened Wrappers

  type Id = string

  const LAST_PORT: nat := 65535
  const CALLER_PORTS: seq<(nat, nat)> := [(22, 22), (8080, 8082)]

  /** IPv4 addresses are numbers; a block holds those that agree with its base in `bits` bits. */
  datatype Cidr = Cidr(base: nat, bits: nat)

  const EVERYWHERE: Cidr := Cidr(0, 0)

  datatype Protocol = Tcp(from: nat, to: nat) | AllTraffic | OtherProtocol

  /** An inbound permission of a group. */
  datatype Permission = Permission(protocol: Protocol, groups: seq<Id>, ranges: seq<Cidr>)

  /** A rule CanyonOS wants: from a group's machines, or from one block of addresses. */
  datatype From = Machines(group: Id) | Addresses(cidr: Cidr)

  datatype Rule = Rule(low: nat, high: nat, source: From)

  // --------------------------------------------------------- the source

  function GroupRules(group: Id, ip: Option<nat>): seq<Rule> {
    [Rule(0, LAST_PORT, Machines(group))] +
    if ip.None? then []
    else
      seq(|CALLER_PORTS|, i requires 0 <= i < |CALLER_PORTS| =>
        Rule(CALLER_PORTS[i].0, CALLER_PORTS[i].1, Addresses(Cidr(ip.value, 32))))
  }

  predicate Covers(p: Permission, rule: Rule) {
    && (p.protocol.AllTraffic? || (p.protocol.Tcp? && p.protocol.from <= rule.low && rule.high <= p.protocol.to))
    && match rule.source
       case Machines(group) => group in p.groups
       case Addresses(cidr) => exists r | r in p.ranges :: r == cidr || r == EVERYWHERE
  }

  predicate Covered(permissions: seq<Permission>, rule: Rule) {
    exists p | p in permissions :: Covers(p, rule)
  }

  function Lacking(permissions: seq<Permission>, wanted: seq<Rule>): seq<Rule> {
    if wanted == [] then []
    else
      (if Covered(permissions, wanted[0]) then [] else [wanted[0]])
      + Lacking(permissions, wanted[1..])
  }

  function MissingRules(group: Id, permissions: seq<Permission>, ip: Option<nat>): seq<Rule> {
    Lacking(permissions, GroupRules(group, ip))
  }

  // -------------------------------------------------------- the traffic

  /** Who connects: an address and the security groups of the machine behind it, if any. */
  datatype Peer = Peer(groups: set<Id>, ip: nat)

  function Pow2(n: nat): (r: nat)
    ensures r > 0
  {
    if n == 0 then 1 else 2 * Pow2(n - 1)
  }

  predicate Holds(c: Cidr, ip: nat) {
    c.bits == 0 || (c.bits <= 32 && ip / Pow2(32 - c.bits) == c.base / Pow2(32 - c.bits))
  }

  predicate InRanges(p: Permission, ip: nat) {
    exists r | r in p.ranges :: Holds(r, ip)
  }

  predicate Opens(p: Permission, port: nat) {
    p.protocol.AllTraffic? || (p.protocol.Tcp? && p.protocol.from <= port <= p.protocol.to)
  }

  predicate Allows(p: Permission, peer: Peer, port: nat) {
    Opens(p, port) && ((exists g | g in p.groups :: g in peer.groups) || InRanges(p, peer.ip))
  }

  predicate Wants(rule: Rule, peer: Peer, port: nat) {
    && rule.low <= port <= rule.high
    && match rule.source
       case Machines(group) => group in peer.groups
       case Addresses(cidr) => Holds(cidr, peer.ip)
  }

  /** The machines of a group have addresses of `net` only; other hosts have any. */
  ghost predicate Exists(peer: Peer, net: iset<nat>) {
    peer.groups == {} || peer.ip in net
  }

  ghost predicate AllowsAll(p: Permission, rule: Rule, net: iset<nat>) {
    forall peer, port: nat :: Exists(peer, net) && Wants(rule, peer, port) ==> Allows(p, peer, port)
  }

  /** The rules the code asks for: some port, from a group or from one address. */
  predicate IsWanted(rule: Rule) {
    rule.low <= rule.high && (rule.source.Addresses? ==> rule.source.cidr.bits == 32)
  }

  lemma OneAddress(c: Cidr, ip: nat)
    requires c.bits == 32
    ensures Holds(c, ip) <==> ip == c.base
  {
    assert Pow2(0) == 1;
  }

  predicate OpensAll(p: Permission, rule: Rule) {
    Opens(p, rule.low) && Opens(p, rule.high)
  }

  lemma CoversIsSound(p: Permission, rule: Rule, net: iset<nat>)
    requires Covers(p, rule)
    ensures AllowsAll(p, rule, net)
  {
    forall peer, port: nat | Exists(peer, net) && Wants(rule, peer, port) ensures Allows(p, peer, port) {
      if rule.source.Addresses? {
        var r :| r in p.ranges && (r == rule.source.cidr || r == EVERYWHERE);
        assert Holds(r, peer.ip);
      }
    }
  }

  /** The permission lets the rule's traffic in through address blocks the code does not recognise. */
  ghost predicate Overlooked(p: Permission, rule: Rule, net: iset<nat>) {
    && OpensAll(p, rule)
    && match rule.source
       case Machines(group) => group !in p.groups && forall ip :: ip in net ==> InRanges(p, ip)
       case Addresses(cidr) => cidr !in p.ranges && Cidr(0, 0) !in p.ranges && InRanges(p, cidr.base)
  }

  /** All of a rule's traffic is let in exactly when the code says so or overlooks the blocks. */
  lemma CoversIsExact(p: Permission, rule: Rule, net: iset<nat>)
    requires IsWanted(rule) && net != iset{}
    ensures AllowsAll(p, rule, net) <==> Covers(p, rule) || Overlooked(p, rule, net)
    ensures !(Covers(p, rule) && Overlooked(p, rule, net))
  {
    if rule.source.Addresses? {
      OneAddress(rule.source.cidr, rule.source.cidr.base);
    }
    if AllowsAll(p, rule, net) {
      AllowedIsSeenOrOverlooked(p, rule, net);
    }
    if Covers(p, rule) {
      CoversIsSound(p, rule, net);
    }
    if Overlooked(p, rule, net) {
      OverlookedIsAllowed(p, rule, net);
    }
  }

  lemma OverlookedIsAllowed(p: Permission, rule: Rule, net: iset<nat>)
    requires IsWanted(rule) && Overlooked(p, rule, net)
    ensures AllowsAll(p, rule, net)
  {
    forall peer, port: nat | Exists(peer, net) && Wants(rule, peer, port) ensures Allows(p, peer, port) {
      if rule.source.Addresses? {
        OneAddress(rule.source.cidr, peer.ip);
      }
    }
  }

  lemma AllowedIsSeenOrOverlooked(p: Permission, rule: Rule, net: iset<nat>)
    requires IsWanted(rule) && AllowsAll(p, rule, net) && net != iset{}
    ensures Covers(p, rule) || Overlooked(p, rule, net)
  {
    match rule.source
    case Machines(group) =>
      forall ip: nat | ip in net ensures OpensAll(p, rule) && (group in p.groups || InRanges(p, ip)) {
        var peer := Peer({group}, ip);
        assert Exists(peer, net) && Wants(rule, peer, rule.low) && Wants(rule, peer, rule.high);
        assert Allows(p, peer, rule.low) && Allows(p, peer, rule.high);
      }
    case Addresses(cidr) =>
      var peer := Peer({}, cidr.base);
      OneAddress(cidr, cidr.base);
      assert Exists(peer, net) && Wants(rule, peer, rule.low) && Wants(rule, peer, rule.high);
      assert Allows(p, peer, rule.low) && Allows(p, peer, rule.high);
  }

  lemma {:induction false} LackingAre(permissions: seq<Permission>, wanted: seq<Rule>)
    ensures forall rule :: rule in Lacking(permissions, wanted) <==> rule in wanted && !Covered(permissions, rule)
  {
    if wanted != [] {
      LackingAre(permissions, wanted[1..]);
      assert forall rule :: rule in wanted <==> rule == wanted[0] || rule in wanted[1..];
    }
  }

  lemma {:induction false} NoneLacking(permissions: seq<Permission>, wanted: seq<Rule>)
    requires forall rule :: rule in wanted ==> Covered(permissions, rule)
    ensures Lacking(permissions, wanted) == []
  {
    if wanted != [] {
      NoneLacking(permissions, wanted[1..]);
    }
  }

  lemma WantedRules(group: Id, ip: Option<nat>)
    ensures forall rule :: rule in GroupRules(group, ip) ==> IsWanted(rule)
  {
    assert CALLER_PORTS == [(22, 22), (8080, 8082)];
  }

  /** A rule is missing exactly when each permission that lets all its traffic in does so overlooked. */
  lemma MissingIsExact(group: Id, permissions: seq<Permission>, ip: Option<nat>, rule: Rule, net: iset<nat>)
    requires rule in GroupRules(group, ip) && net != iset{}
    ensures rule in MissingRules(group, permissions, ip) <==>
            forall p :: p in permissions && AllowsAll(p, rule, net) ==> Overlooked(p, rule, net)
  {
    WantedRules(group, ip);
    LackingAre(permissions, GroupRules(group, ip));
    forall p | p in permissions
      ensures Covers(p, rule) <==> AllowsAll(p, rule, net) && !Overlooked(p, rule, net)
    {
      CoversIsExact(p, rule, net);
    }
  }

  function AsPermission(rule: Rule): Permission {
    match rule.source
    case Machines(group) => Permission(Tcp(rule.low, rule.high), [group], [])
    case Addresses(cidr) => Permission(Tcp(rule.low, rule.high), [], [cidr])
  }

  function Added(permissions: seq<Permission>, rules: seq<Rule>): seq<Permission> {
    permissions + seq(|rules|, i requires 0 <= i < |rules| => AsPermission(rules[i]))
  }

  lemma AddedCovers(permissions: seq<Permission>, rules: seq<Rule>, rule: Rule)
    requires rule in rules || Covered(permissions, rule)
    ensures Covered(Added(permissions, rules), rule)
  {
    var added := Added(permissions, rules);
    if rule in rules {
      var i :| 0 <= i < |rules| && rules[i] == rule;
      var own := AsPermission(rule);
      assert added[|permissions| + i] == own;
      assert own in added;
      assert rule.source.Addresses? ==> rule.source.cidr in own.ranges;
      assert Covers(own, rule);
    } else {
      var p :| p in permissions && Covers(p, rule);
      assert p in added;
    }
  }

  /** What CanyonOS wants let in: the group's machines on every port, the caller on its four. */
  predicate IsWantedTraffic(group: Id, ip: Option<nat>, peer: Peer, port: nat) {
    || (group in peer.groups && port <= 65535)
    || (ip == Some(peer.ip) && (port == 22 || port == 8080 || port == 8081 || port == 8082))
  }

  lemma RulesWant(group: Id, ip: Option<nat>, peer: Peer, port: nat)
    ensures (exists rule :: rule in GroupRules(group, ip) && Wants(rule, peer, port)) <==>
            IsWantedTraffic(group, ip, peer, port)
  {
    var rules := GroupRules(group, ip);
    assert CALLER_PORTS == [(22, 22), (8080, 8082)];
    assert rules[0] == Rule(0, 65535, Machines(group));
    assert forall rule :: rule in rules ==> rule == rules[0] || (ip.Some? && (rule == rules[1] || rule == rules[2]));
    if ip.Some? {
      OneAddress(Cidr(ip.value, 32), peer.ip);
      assert rules[1] == Rule(22, 22, Addresses(Cidr(ip.value, 32)));
      assert rules[2] == Rule(8080, 8082, Addresses(Cidr(ip.value, 32)));
      assert Wants(rules[1], peer, port) <==> peer.ip == ip.value && port == 22;
      assert Wants(rules[2], peer, port) <==> peer.ip == ip.value && 8080 <= port <= 8082;
    }
    assert Wants(rules[0], peer, port) <==> group in peer.groups && port <= 65535;
    if IsWantedTraffic(group, ip, peer, port) {
      var rule := if Wants(rules[0], peer, port) then rules[0] else if port == 22 then rules[1] else rules[2];
      assert rule in rules && Wants(rule, peer, port);
    }
  }

  /** As a permission a rule lets in exactly its own traffic. */
  lemma AsPermissionIsExact(rule: Rule, peer: Peer, port: nat)
    ensures Allows(AsPermission(rule), peer, port) <==> Wants(rule, peer, port)
  {
    var p := AsPermission(rule);
    if rule.source.Machines? {
      assert p.groups == [rule.source.group];
      assert rule.source.group in p.groups;
    } else {
      assert p.ranges == [rule.source.cidr];
      assert rule.source.cidr in p.ranges;
    }
  }

  ghost predicate AllowedBy(permissions: seq<Permission>, peer: Peer, port: nat) {
    exists p :: p in permissions && Allows(p, peer, port)
  }

  /**
   Adding what is missing leaves nothing missing, and lets in all that is wanted and what the group
   let in before, and nothing else.
   */
  lemma AddingMissingIsEnough(group: Id, permissions: seq<Permission>, ip: Option<nat>)
    ensures var added := Added(permissions, MissingRules(group, permissions, ip));
            && MissingRules(group, added, ip) == []
            && forall peer, port: nat :: AllowedBy(added, peer, port) <==>
                 AllowedBy(permissions, peer, port) || IsWantedTraffic(group, ip, peer, port)
  {
    var wanted, missing := GroupRules(group, ip), MissingRules(group, permissions, ip);
    var added := Added(permissions, missing);
    LackingAre(permissions, wanted);
    forall rule | rule in wanted ensures Covered(added, rule) {
      AddedCovers(permissions, missing, rule);
    }
    NoneLacking(added, wanted);
    forall peer, port: nat
      ensures AllowedBy(added, peer, port) <==>
              AllowedBy(permissions, peer, port) || IsWantedTraffic(group, ip, peer, port)
    {
      RulesWant(group, ip, peer, port);
      if IsWantedTraffic(group, ip, peer, port) {
        var rule :| rule in wanted && Wants(rule, peer, port);
        var p :| p in added && Covers(p, rule);
        CoversIsSound(p, rule, iset{peer.ip});
        assert Exists(peer, iset{peer.ip});
      }
      OnlyMissingIsNew(permissions, missing, peer, port);
      assert forall rule :: rule in missing ==> rule in wanted;
    }
  }

  lemma OnlyMissingIsNew(permissions: seq<Permission>, rules: seq<Rule>, peer: Peer, port: nat)
    ensures AllowedBy(Added(permissions, rules), peer, port) ==>
              AllowedBy(permissions, peer, port) || exists rule :: rule in rules && Wants(rule, peer, port)
    ensures AllowedBy(permissions, peer, port) ==> AllowedBy(Added(permissions, rules), peer, port)
  {
    var added := Added(permissions, rules);
    if p :| p in added && Allows(p, peer, port) {
      var i :| 0 <= i < |added| && added[i] == p;
      if i >= |permissions| {
        AsPermissionIsExact(rules[i - |permissions|], peer, port);
      }
    }
    assert forall p :: p in permissions ==> p in added;
  }

  // ------------------------------------------------- needless reports

  /** Everything open to everyone lets a group's machines in, yet the group rule is reported. */
  lemma OpenToAllIsOverlooked(group: Id, net: iset<nat>)
    ensures var p, rule := Permission(AllTraffic, [], [EVERYWHERE]), Rule(0, LAST_PORT, Machines(group));
            AllowsAll(p, rule, net) && rule in MissingRules(group, [p], None)
  {
    var p, rule := Permission(AllTraffic, [], [EVERYWHERE]), Rule(0, LAST_PORT, Machines(group));
    assert forall ip: nat :: Holds(EVERYWHERE, ip);
    assert EVERYWHERE in p.ranges;
    assert forall ip: nat :: InRanges(p, ip);
    OverlookedIsAllowed(p, rule, net);
    LackingAre([p], GroupRules(group, None));
    assert GroupRules(group, None)[0] == rule;
  }

  lemma EightBits()
    ensures Pow2(8) == 256
  {
    assert Pow2(2) == 4 && Pow2(4) == 16 && Pow2(6) == 64;
  }

  /** A block of 256 addresses around the caller's own lets the caller in, yet the rule is reported. */
  lemma BlockIsOverlooked(ip: nat, net: iset<nat>)
    ensures var p, rule := Permission(Tcp(22, 22), [], [Cidr(ip, 24)]), Rule(22, 22, Addresses(Cidr(ip, 32)));
            && (forall other: nat :: Holds(Cidr(ip, 24), other) <==> other / 256 == ip / 256)
            && AllowsAll(p, rule, net) && rule in MissingRules("sg", [p], Some(ip))
  {
    EightBits();
    var p, rule := Permission(Tcp(22, 22), [], [Cidr(ip, 24)]), Rule(22, 22, Addresses(Cidr(ip, 32)));
    assert Holds(Cidr(ip, 24), ip) && Cidr(ip, 24) in p.ranges;
    OverlookedIsAllowed(p, rule, net);
    LackingAre([p], GroupRules("sg", Some(ip)));
    assert GroupRules("sg", Some(ip))[1] == rule;
  }

  /** The permissions let all of the rule's traffic in, each connection through one of them. */
  ghost predicate LetIn(permissions: seq<Permission>, rule: Rule, net: iset<nat>) {
    forall peer, port: nat :: Exists(peer, net) && Wants(rule, peer, port) ==>
      exists p :: p in permissions && Allows(p, peer, port)
  }

  /** The permission serves the rule on this port for this address. */
  predicate Serves(p: Permission, rule: Rule, ip: nat, port: nat) {
    Opens(p, port) && (InRanges(p, ip) || (rule.source.Machines? && rule.source.group in p.groups))
  }

  /** The rule is for this port, and for a connection from this address. */
  ghost predicate Concerns(rule: Rule, net: iset<nat>, ip: nat, port: nat) {
    rule.low <= port <= rule.high && if rule.source.Machines? then ip in net else ip == rule.source.cidr.base
  }

  /** On each of its ports, and for each address it is for, some permission serves the rule. */
  ghost predicate ServedPortByPort(permissions: seq<Permission>, rule: Rule, net: iset<nat>) {
    forall ip: nat, port: nat :: Concerns(rule, net, ip, port) ==>
      exists p :: p in permissions && Serves(p, rule, ip, port)
  }

  lemma LetInPortByPort(permissions: seq<Permission>, rule: Rule, net: iset<nat>)
    requires IsWanted(rule)
    ensures LetIn(permissions, rule, net) <==> ServedPortByPort(permissions, rule, net)
  {
    if LetIn(permissions, rule, net) {
      forall ip: nat, port: nat | Concerns(rule, net, ip, port)
        ensures exists p :: p in permissions && Serves(p, rule, ip, port)
      {
        var peer := Peer(if rule.source.Machines? then {rule.source.group} else {}, ip);
        if rule.source.Addresses? {
          OneAddress(rule.source.cidr, ip);
        }
        assert Exists(peer, net) && Wants(rule, peer, port);
        var p :| p in permissions && Allows(p, peer, port);
        assert Serves(p, rule, ip, port);
      }
    }
    if ServedPortByPort(permissions, rule, net) {
      forall peer, port: nat | Exists(peer, net) && Wants(rule, peer, port)
        ensures exists p :: p in permissions && Allows(p, peer, port)
      {
        if rule.source.Addresses? {
          OneAddress(rule.source.cidr, peer.ip);
        }
        assert Concerns(rule, net, peer.ip, port);
        var p :| p in permissions && Serves(p, rule, peer.ip, port);
        assert Allows(p, peer, port);
      }
    }
  }

  /**
   A rule is reported although its traffic is let in exactly when the permissions serve it port by
   port and address by address, but none does so alone other than overlooked.
   */
  lemma NeedlesslyReportedExactly(group: Id, permissions: seq<Permission>, ip: Option<nat>, rule: Rule, net: iset<nat>)
    requires rule in GroupRules(group, ip) && net != iset{}
    ensures rule in MissingRules(group, permissions, ip) && LetIn(permissions, rule, net) <==>
            && ServedPortByPort(permissions, rule, net)
            && forall p :: p in permissions && AllowsAll(p, rule, net) ==> Overlooked(p, rule, net)
  {
    WantedRules(group, ip);
    LetInPortByPort(permissions, rule, net);
    MissingIsExact(group, permissions, ip, rule, net);
  }

  /** Two permissions that let the traffic in only together are not recognised. */
  lemma SharedCoverIsMissed(ip: nat)
    ensures var low := Permission(Tcp(8080, 8080), [], [EVERYWHERE]);
            var high := Permission(Tcp(8081, 8082), [], [EVERYWHERE]);
            var rule := Rule(8080, 8082, Addresses(Cidr(ip, 32)));
            && rule in MissingRules("sg", [low, high], Some(ip))
            && forall peer, port: nat :: Wants(rule, peer, port) ==> Allows(low, peer, port) || Allows(high, peer, port)
  {
    var low, high := Permission(Tcp(8080, 8080), [], [EVERYWHERE]), Permission(Tcp(8081, 8082), [], [EVERYWHERE]);
    var rule := Rule(8080, 8082, Addresses(Cidr(ip, 32)));
    LackingAre([low, high], GroupRules("sg", Some(ip)));
    assert GroupRules("sg", Some(ip))[2] == rule;
    assert EVERYWHERE in low.ranges && EVERYWHERE in high.ranges;
    assert forall peer: Peer :: Holds(EVERYWHERE, peer.ip) && InRanges(low, peer.ip) && InRanges(high, peer.ip);
  }
}
