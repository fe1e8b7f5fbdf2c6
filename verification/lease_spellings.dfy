/**
 * What the leases mean as addresses. The allocator compares addresses as strings, and a number may be
 * written with leading zeros, so one address has many spellings.
 */
module LeaseSpellings {
  import opened Prelude
  import opened LeasePool

  /** Four groups of digits, of any length. */
  predicate IsAddress(ip: string) {
    var p := Split(ip, '.');
    |p| == 4 && AllNumbers(p)
  }

  /** The four numbers of an address. */
  function Numbers(ip: string): seq<nat>
    requires IsAddress(ip)
  {
    var p := Split(ip, '.');
    [ValueOf(p[0]), ValueOf(p[1]), ValueOf(p[2]), ValueOf(p[3])]
  }

  predicate SameAddress(x: string, y: string) {
    IsAddress(x) && IsAddress(y) && Numbers(x) == Numbers(y)
  }

  /** A number without leading zeros. */
  predicate PlainGroup(s: string) {
    s != "" && AllDigits(s) && (|s| > 1 ==> s[0] != '0')
  }

  predicate Plain(ip: string) {
    var p := Split(ip, '.');
    |p| == 4 && forall i | 0 <= i < 4 :: PlainGroup(p[i])
  }

  function Strip(s: string): string {
    if |s| > 1 && s[0] == '0' then Strip(s[1..]) else s
  }

  /** The same numbers without leading zeros. */
  function PlainSpelling(ip: string): string
    requires IsAddress(ip)
  {
    var p := Split(ip, '.');
    Strip(p[0]) + "." + Strip(p[1]) + "." + Strip(p[2]) + "." + Strip(p[3])
  }

  /* Groups */

  lemma {:induction false} LeadingZero(s: string)
    requires s != "" && AllDigits(s) && s[0] == '0'
    ensures AllDigits(s[1..]) && ValueOf(s) == ValueOf(s[1..])
    decreases |s|
  {
    if |s| == 1 {
      assert s[..0] == "" && s[1..] == "";
    } else {
      var front := s[..|s| - 1];
      LeadingZero(front);
      assert s[1..][..|s| - 2] == front[1..];
    }
  }

  lemma {:induction false} StripIsPlain(s: string)
    requires s != "" && AllDigits(s)
    ensures PlainGroup(Strip(s)) && |Strip(s)| <= |s| && ValueOf(Strip(s)) == ValueOf(s)
    ensures PlainGroup(s) <==> Strip(s) == s
  {
    if |s| > 1 && s[0] == '0' {
      LeadingZero(s);
      StripIsPlain(s[1..]);
    }
  }

  /** A number without leading zeros is written in one way only. */
  lemma {:induction false} PlainIsShown(s: string)
    requires PlainGroup(s)
    ensures ShowNat(ValueOf(s)) == s && (s[0] != '0' ==> ValueOf(s) > 0)
    decreases |s|
  {
    var front, last := s[..|s| - 1], s[|s| - 1] as int - '0' as int;
    assert ValueOf(s) == 10 * ValueOf(front) + last && 0 <= last < 10;
    if |s| == 1 {
      assert front == "" && Digits(last) == [last];
      assert ShowNat(last) == [s[0]];
    } else {
      PlainIsShown(front);
      ShowNatMore(ValueOf(front), last);
      assert s == front + [s[|s| - 1]];
    }
  }

  lemma ShowNatMore(n: nat, d: digit)
    requires n > 0
    ensures ShowNat(10 * n + d) == ShowNat(n) + ['0' + d as char]
  {
    assert (10 * n + d) / 10 == n && (10 * n + d) % 10 == d;
    assert Digits(10 * n + d) == Digits(n) + [d];
  }

  lemma {:induction false} ShownIsPlain(n: nat)
    ensures PlainGroup(ShowNat(n)) && (n > 0 ==> ShowNat(n)[0] != '0')
  {
    ShownDigits(n);
    ShowNatStart(n);
    if n < 10 {
      assert Digits(n) == [n];
    } else {
      ShownIsPlain(n / 10);
      ShowNatMore(n / 10, n % 10);
      hide ShowNat;
      assert ShowNat(n)[0] == ShowNat(n / 10)[0];
    }
  }

  lemma PlainGroupInjective(s: string, t: string)
    requires PlainGroup(s) && PlainGroup(t) && ValueOf(s) == ValueOf(t)
    ensures s == t
  {
    PlainIsShown(s);
    PlainIsShown(t);
  }

  /* Addresses */

  /** An address without leading zeros is written in one way only. */
  lemma PlainInjective(x: string, y: string)
    requires Plain(x) && Plain(y) && SameAddress(x, y)
    ensures x == y
  {
    var p, q := Split(x, '.'), Split(y, '.');
    assert Numbers(x)[0] == Numbers(y)[0] && Numbers(x)[1] == Numbers(y)[1];
    assert Numbers(x)[2] == Numbers(y)[2] && Numbers(x)[3] == Numbers(y)[3];
    PlainGroupInjective(p[0], q[0]);
    PlainGroupInjective(p[1], q[1]);
    PlainGroupInjective(p[2], q[2]);
    PlainGroupInjective(p[3], q[3]);
    hide Split;
    assert p == q;
    SplitExactly(x, '.');
    SplitExactly(y, '.');
  }

  lemma PlainIsAddress(ip: string)
    requires Plain(ip)
    ensures IsAddress(ip)
  {
    hide Split, AllDigits;
  }

  lemma SplitFour(a: string, b: string, c: string, d: string)
    requires '.' !in a && '.' !in b && '.' !in c && '.' !in d
    ensures Split(a + "." + b + "." + c + "." + d, '.') == [a, b, c, d]
  {
    hide Split;
    JoinFour(a, b, c, d);
    SplitJoined([a, b, c, d], '.');
  }

  lemma DigitsHaveNoDot(s: string)
    requires AllDigits(s)
    ensures '.' !in s
  {
  }

  lemma PlainSpellingIs(ip: string)
    requires IsAddress(ip)
    ensures Plain(PlainSpelling(ip)) && SameAddress(PlainSpelling(ip), ip)
    ensures Plain(ip) <==> PlainSpelling(ip) == ip
    ensures IpShaped(ip) ==> IpShaped(PlainSpelling(ip))
  {
    var p := Split(ip, '.');
    StripIsPlain(p[0]);
    StripIsPlain(p[1]);
    StripIsPlain(p[2]);
    StripIsPlain(p[3]);
    hide Split, Strip, ValueOf;
    DigitsHaveNoDot(Strip(p[0]));
    DigitsHaveNoDot(Strip(p[1]));
    DigitsHaveNoDot(Strip(p[2]));
    DigitsHaveNoDot(Strip(p[3]));
    SplitFour(Strip(p[0]), Strip(p[1]), Strip(p[2]), Strip(p[3]));
    hide AllDigits;
    SplitExactly(ip, '.');
    assert Split(PlainSpelling(ip), '.') == [Strip(p[0]), Strip(p[1]), Strip(p[2]), Strip(p[3])];
    if Plain(ip) {
      assert p == [p[0], p[1], p[2], p[3]];
      JoinFour(p[0], p[1], p[2], p[3]);
    }
  }

  lemma AddressIsNormal(ip: string)
    requires IpShaped(ip)
    ensures NormalizeRequestedIp(ip) == Some(ip)
  {
    EndsInDigits(ip);
    assert TrimStart(ip) == ip && TrimEnd(ip) == ip;
  }

  lemma EndsInDigits(ip: string)
    requires IpShaped(ip)
    ensures ip != "" && IsDigit(ip[0]) && IsDigit(ip[|ip| - 1])
  {
    var p := Split(ip, '.');
    SplitExactly(ip, '.');
    hide Split;
    assert p == [p[0], p[1], p[2], p[3]];
    JoinFour(p[0], p[1], p[2], p[3]);
    assert ip[0] == p[0][0] && ip[|ip| - 1] == p[3][|p[3]| - 1];
  }

  lemma HostIsLastNumber(ip: string)
    requires IsAddress(ip)
    ensures HostPart(ip) == Some(Numbers(ip)[3])
  {
  }

  /** A candidate is an address without leading zeros, unless its host number is negative. */
  lemma CandidateIsPlain(cfg: Config, i: int)
    requires Plain(cfg.gateway)
    ensures if i >= 0 then Plain(Candidate(cfg, i)) else !IsAddress(Candidate(cfg, i))
  {
    var p := Split(cfg.gateway, '.');
    SplitExactly(cfg.gateway, '.');
    var m := if i < 0 then -i else i;
    ShownIsPlain(m);
    DigitsHaveNoDot(ShowNat(m));
    hide Split, ShowNat;
    SplitFour(p[0], p[1], p[2], Show(i));
    var q := Split(Candidate(cfg, i), '.');
    assert q[0] == p[0] && q[1] == p[1] && q[2] == p[2] && q[3] == Show(i);
    if i < 0 {
      assert q[3][0] == '-';
    }
  }

  /* Requests, by their numbers */

  /**
   * A request is honoured: four groups of one to three digits, the last number in range, and neither
   * leased nor the gateway's, as a string.
   */
  predicate Honoured(cfg: Config, leases: Leases, ip: string) {
    && IsAddress(ip) && NoneLonger(Split(ip, '.'), 3)
    && cfg.start <= Numbers(ip)[3] <= cfg.end
    && ip !in leases.Values && ip != cfg.gateway
  }

  /**
   * A new client is given the address it asks for exactly when the request is honoured, and is treated as
   * if it had not asked otherwise.
   */
  lemma RequestExactly(cfg: Config, leases: Leases, id: string, value: string)
    requires !Holds(leases, id)
    ensures Allocate(cfg, leases, id, NormalizeRequestedIp(value)) ==
            if Honoured(cfg, leases, Trim(value)) then (Record(leases, id, Trim(value)), Success(Trim(value)))
            else Allocate(cfg, leases, id, None)
  {
    var ip := Trim(value);
    hide Trim, Record, FirstFree, WellFormedGateway;
    ShapedExactly(ip);
    if IsAddress(ip) {
      HostIsLastNumber(ip);
    }
    BlankIsNoAddress();
    hide IsAddress, Numbers, IpShaped, HostPart;
  }

  lemma ShapedExactly(ip: string)
    ensures IpShaped(ip) <==> IsAddress(ip) && NoneLonger(Split(ip, '.'), 3)
  {
    hide Split, AllNumbers, NoneLonger;
  }

  lemma BlankIsNoAddress()
    ensures !IsAddress("") && !IpShaped("")
  {
  }

  /* Leases without leading zeros */

  predicate AllPlain(leases: Leases) {
    forall a | a in leases && IsAddress(leases[a]) :: Plain(leases[a])
  }

  /** Requests, as far as they are addresses at all, are written without leading zeros. */
  predicate PlainRequest(ev: Event) {
    ev.Allocated? && NormalizeRequestedIp(ev.requestedIp).Some? ==> Plain(NormalizeRequestedIp(ev.requestedIp).value)
  }

  lemma StepPlain(cfg: Config, leases: Leases, ev: Event)
    requires Plain(cfg.gateway) && AllPlain(leases) && PlainRequest(ev)
    ensures AllPlain(Step(cfg, leases, ev))
  {
    hide Plain, IsAddress, NormalizeRequestedIp, NormalizeClientId, Candidate, WellFormedGateway, FirstFree, Free;
    if ev.Allocated? && !Holds(leases, Client(ev).value) {
      var requested := NormalizeRequestedIp(ev.requestedIp);
      if Choose(cfg, leases, requested).Success? && !Usable(cfg, leases, requested) {
        FirstFreeIsLowest(cfg, leases, cfg.start);
        var i: int :| cfg.start <= i <= cfg.end && FirstFree(cfg, leases, cfg.start) == Some(Candidate(cfg, i));
        CandidateIsPlain(cfg, i);
      }
    }
  }

  lemma {:induction false} RunPlain(cfg: Config, events: seq<Event>)
    requires Plain(cfg.gateway) && forall i | 0 <= i < |events| :: PlainRequest(events[i])
    ensures AllPlain(Run(cfg, events))
  {
    if events == [] {
    } else {
      hide AllPlain, PlainRequest, Step, Plain;
      RunPlain(cfg, events[..|events| - 1]);
      StepPlain(cfg, Run(cfg, events[..|events| - 1]), events[|events| - 1]);
    }
  }

  /**
   * In every run in which the gateway and all requests are written without leading zeros, distinct
   * clients hold distinct addresses, number by number, and none holds the gateway's.
   */
  lemma AddressesDistinct(cfg: Config, events: seq<Event>)
    requires Plain(cfg.gateway) && forall i | 0 <= i < |events| :: PlainRequest(events[i])
    ensures
      var leases := Run(cfg, events);
      && (forall a, b | a in leases && b in leases && SameAddress(leases[a], leases[b]) :: a == b)
      && forall a | a in leases :: !SameAddress(leases[a], cfg.gateway)
  {
    var leases := Run(cfg, events);
    RunPlain(cfg, events);
    LeaseSafety(cfg, events);
    hide Plain, IsAddress, Numbers, Run;
    forall a, b | a in leases && b in leases && SameAddress(leases[a], leases[b]) ensures a == b {
      PlainInjective(leases[a], leases[b]);
    }
    forall a | a in leases ensures !SameAddress(leases[a], cfg.gateway) {
      if SameAddress(leases[a], cfg.gateway) {
        PlainInjective(leases[a], cfg.gateway);
      }
    }
  }

  /* Leases with leading zeros */

  /**
   * After every run, each usable request with a leading zero lets two clients end on one address: when
   * the plain spelling is free, a second client that requests it is granted it.
   */
  lemma TwoSpellings(cfg: Config, events: seq<Event>, first: Event, second: Event)
    requires first.Allocated? && second.Allocated? && Client(first) != Client(second)
    requires Client(first).value !in Run(cfg, events) && Client(first).value != PROTO
    requires Client(second).value !in Run(cfg, events) && Client(second).value != PROTO
    requires Usable(cfg, Run(cfg, events), NormalizeRequestedIp(first.requestedIp))
    requires !Plain(NormalizeRequestedIp(first.requestedIp).value)
    requires second.requestedIp == PlainSpelling(NormalizeRequestedIp(first.requestedIp).value)
    requires second.requestedIp !in Run(cfg, events).Values && second.requestedIp != cfg.gateway
    ensures
      var leases := Run(cfg, events + [first] + [second]);
      var a, b := Client(first).value, Client(second).value;
      a in leases && b in leases && leases[a] != leases[b] && SameAddress(leases[a], leases[b])
  {
    var leases, r, p := Run(cfg, events), NormalizeRequestedIp(first.requestedIp).value, second.requestedIp;
    PlainSpellingIs(r);
    AddressIsNormal(p);
    HostIsLastNumber(r);
    HostIsLastNumber(p);
    hide Run, NormalizeRequestedIp, NormalizeClientId, PlainSpelling, Plain, IsAddress, HostPart, Numbers, IpShaped;
    RunOne(cfg, events, first);
    UsableIsGranted(cfg, leases, first);
    RunOne(cfg, events + [first], second);
    var leases1 := leases[Client(first).value := r];
    assert leases1.Values <= leases.Values + {r};
    UsableIsGranted(cfg, leases1, second);
  }

  /**
   * In the gateway's subnet no second request is needed: when the lower hosts are taken, the plain
   * spelling is what the next client without a request is given.
   */
  lemma SecondSpellingIsAutomatic(cfg: Config, leases: Leases, id: string, ip: string)
    requires Plain(cfg.gateway) && IsAddress(cfg.gateway) && IsAddress(ip)
    requires Numbers(ip)[..3] == Numbers(cfg.gateway)[..3]
    requires cfg.start <= Numbers(ip)[3] <= cfg.end && id !in leases
    requires PlainSpelling(ip) !in leases.Values && PlainSpelling(ip) != cfg.gateway
    requires forall k: int | cfg.start <= k < Numbers(ip)[3] :: !Free(cfg, leases, k)
    ensures Allocate(cfg, leases, id, None).1 == Success(PlainSpelling(ip))
  {
    var host := Numbers(ip)[3];
    PlainCandidate(cfg, ip);
    hide Plain, IsAddress, Numbers, PlainSpelling, FirstFree;
    LowestFree(cfg, leases, cfg.start, host);
  }

  lemma {:induction false} LowestFree(cfg: Config, leases: Leases, i: int, host: int)
    requires WellFormedGateway(cfg) && i <= host <= cfg.end && Free(cfg, leases, host)
    requires forall k: int | i <= k < host :: !Free(cfg, leases, k)
    ensures FirstFree(cfg, leases, i) == Some(Candidate(cfg, host))
    decreases host - i
  {
    hide Free, Candidate, WellFormedGateway;
    if i == host {
    } else {
      LowestFree(cfg, leases, i + 1, host);
    }
  }

  /** In the gateway's subnet the plain spelling is the candidate for the host. */
  lemma PlainCandidate(cfg: Config, ip: string)
    requires Plain(cfg.gateway) && IsAddress(cfg.gateway) && IsAddress(ip)
    requires Numbers(ip)[..3] == Numbers(cfg.gateway)[..3]
    ensures WellFormedGateway(cfg) && PlainSpelling(ip) == Candidate(cfg, Numbers(ip)[3])
  {
    var host := Numbers(ip)[3];
    CandidateNumbers(cfg, host);
    PlainSpellingIs(ip);
    CandidateIsPlain(cfg, host);
    assert Numbers(ip) == Numbers(ip)[..3] + [host];
    hide Plain, IsAddress, Numbers, Candidate, PlainSpelling;
    PlainInjective(Candidate(cfg, host), PlainSpelling(ip));
  }

  lemma CandidateNumbers(cfg: Config, i: nat)
    requires Plain(cfg.gateway)
    ensures IsAddress(cfg.gateway) && IsAddress(Candidate(cfg, i))
    ensures Numbers(Candidate(cfg, i)) == Numbers(cfg.gateway)[..3] + [i]
  {
    var p := Split(cfg.gateway, '.');
    SplitExactly(cfg.gateway, '.');
    ShownDigits(i);
    ShowNatStart(i);
    hide Split, ShowNat;
    SplitFour(p[0], p[1], p[2], ShowNat(i));
    hide ValueOf, AllDigits;
  }

  /** Two requests from the start: the first host under another spelling, and then no address in particular. */
  lemma FirstHostTwice(cfg: Config, first: Event, second: Event, ip: string)
    requires Plain(cfg.gateway) && IsAddress(cfg.gateway) && IsAddress(ip) && !Plain(ip)
    requires Numbers(ip)[..3] == Numbers(cfg.gateway)[..3]
    requires Numbers(ip)[3] == cfg.start <= cfg.end && PlainSpelling(ip) != cfg.gateway
    requires first.Allocated? && NormalizeRequestedIp(first.requestedIp) == Some(ip)
    requires second.Allocated? && NormalizeRequestedIp(second.requestedIp) == None
    requires Client(first) != Client(second) && Client(first).value != PROTO && Client(second).value != PROTO
    ensures Run(cfg, [first] + [second]) ==
            map[Client(first).value := ip, Client(second).value := PlainSpelling(ip)]
    ensures SameAddress(ip, PlainSpelling(ip)) && ip != PlainSpelling(ip)
  {
    hide Run, NormalizeRequestedIp, NormalizeClientId, HostPart, Plain, IsAddress, Numbers, PlainSpelling, Choose;
    hide IpShaped, Step, Free, WellFormedGateway, SameAddress;
    var leases := map[Client(first).value := ip];
    HostIsLastNumber(ip);
    PlainSpellingIs(ip);
    NothingLeased(cfg);
    RunOne(cfg, [], first);
    RunOne(cfg, [] + [first], second);
    assert [] + [first] == [first];
    FirstIsGranted(cfg, first, ip);
    SecondSpellingIsAutomatic(cfg, leases, Client(second).value, ip);
    UnaskedIsGranted(cfg, leases, second, PlainSpelling(ip));
    SameSpelled(PlainSpelling(ip), ip);
  }

  lemma SameSpelled(x: string, y: string)
    requires SameAddress(x, y)
    ensures SameAddress(y, x)
  {
    hide Numbers, IsAddress;
  }

  lemma NothingLeased(cfg: Config)
    ensures Run(cfg, []) == map[]
  {
  }

  lemma FirstIsGranted(cfg: Config, ev: Event, ip: string)
    requires ev.Allocated? && NormalizeRequestedIp(ev.requestedIp) == Some(ip) && Client(ev).value != PROTO
    requires HostPart(ip).Some? && cfg.start <= HostPart(ip).value <= cfg.end && ip != cfg.gateway
    ensures Step(cfg, map[], ev) == map[Client(ev).value := ip]
  {
    hide NormalizeRequestedIp, NormalizeClientId, HostPart, Step;
    UsableIsGranted(cfg, map[], ev);
  }

  lemma UnaskedIsGranted(cfg: Config, leases: Leases, ev: Event, ip: string)
    requires ev.Allocated? && NormalizeRequestedIp(ev.requestedIp) == None
    requires Client(ev).value !in leases && Client(ev).value != PROTO
    requires Allocate(cfg, leases, Client(ev).value, None).1 == Success(ip)
    ensures Step(cfg, leases, ev) == leases[Client(ev).value := ip]
  {
    hide NormalizeRequestedIp, NormalizeClientId, Choose;
  }

  /* The shipped configuration */

  const DEFAULT := Config("10.99.0.1", 2, 254)

  lemma DefaultGroups()
    ensures Split("10.99.0.1", '.') == ["10", "99", "0", "1"] && Split("10.99.0.02", '.') == ["10", "99", "0", "02"]
  {
    SplitFour("10", "99", "0", "1");
    SplitFour("10", "99", "0", "02");
    hide Split;
    assert "10" + "." + "99" + "." + "0" + "." + "1" == "10.99.0.1";
    assert "10" + "." + "99" + "." + "0" + "." + "02" == "10.99.0.02";
  }

  lemma DefaultAddresses()
    ensures Plain("10.99.0.1") && IsAddress("10.99.0.1") && IsAddress("10.99.0.02") && IpShaped("10.99.0.02")
    ensures PlainSpelling("10.99.0.02") == "10.99.0.2"
    ensures Numbers("10.99.0.02")[..3] == Numbers("10.99.0.1")[..3] && Numbers("10.99.0.02")[3] == 2
  {
    DefaultGroups();
    DefaultValues();
    hide Split, ValueOf, Strip;
  }

  lemma DefaultSubnet()
    ensures Plain(DEFAULT.gateway) && IsAddress(DEFAULT.gateway) && IsAddress("10.99.0.02")
    ensures Numbers("10.99.0.02")[..3] == Numbers(DEFAULT.gateway)[..3]
    ensures Numbers("10.99.0.02")[3] == DEFAULT.start <= DEFAULT.end
    ensures PlainSpelling("10.99.0.02") == "10.99.0.2" != DEFAULT.gateway
    ensures !Plain("10.99.0.02") && NormalizeRequestedIp("10.99.0.02") == Some("10.99.0.02")
  {
    DefaultAddresses();
    AddressIsNormal("10.99.0.02");
    PlainSpellingIs("10.99.0.02");
    hide Plain, IsAddress, Numbers, PlainSpelling, IpShaped, NormalizeRequestedIp, SameAddress;
    assert PlainSpelling("10.99.0.02")[8] != "10.99.0.02"[8];
  }

  lemma TrimmedClient(a: string, requestedIp: string)
    requires a != "" && Trim(a) == a && a != PROTO
    ensures Client(Allocated(a, requestedIp, "")) == Some(a)
  {
    hide Trim;
  }

  /** Two requests suffice: "10.99.0.02" is granted as requested, and the next client is given "10.99.0.2". */
  lemma DefaultSpellings(a: string, b: string)
    requires a != b && PROTO !in {a, b} && a != "" && b != "" && Trim(a) == a && Trim(b) == b
    ensures Run(DEFAULT, [Allocated(a, "10.99.0.02", "")] + [Allocated(b, "", "")]) ==
            map[a := "10.99.0.02", b := "10.99.0.2"]
    ensures SameAddress("10.99.0.02", "10.99.0.2")
  {
    hide *;
    DefaultSubnet();
    NothingRequested();
    TrimmedClient(a, "10.99.0.02");
    TrimmedClient(b, "");
    FirstHostTwice(DEFAULT, Allocated(a, "10.99.0.02", ""), Allocated(b, "", ""), "10.99.0.02");
  }

  lemma DefaultValues()
    ensures AllDigits("10") && AllDigits("99") && AllDigits("0") && AllDigits("1") && AllDigits("02")
    ensures ValueOf("02") == 2 && Strip("02") == "2" && Strip("10") == "10" && Strip("99") == "99" && Strip("0") == "0"
  {
    LeadingZero("02");
    assert "02"[1..] == "2" && "2"[..0] == "";
  }

  lemma NothingRequested()
    ensures NormalizeRequestedIp("") == None
  {
  }

  /** If the gateway itself is written with a leading zero, a request for its plain spelling is granted. */
  lemma GatewayIsLeased(cfg: Config, ev: Event)
    requires IsAddress(cfg.gateway) && !Plain(cfg.gateway) && IpShaped(cfg.gateway)
    requires cfg.start <= Numbers(cfg.gateway)[3] <= cfg.end
    requires ev.Allocated? && Client(ev).value != PROTO && ev.requestedIp == PlainSpelling(cfg.gateway)
    ensures
      var leases := Run(cfg, [ev]);
      Client(ev).value in leases && SameAddress(leases[Client(ev).value], cfg.gateway)
  {
    var p := PlainSpelling(cfg.gateway);
    PlainSpellingIs(cfg.gateway);
    AddressIsNormal(p);
    HostIsLastNumber(p);
    hide NormalizeRequestedIp, NormalizeClientId, PlainSpelling, Plain, IsAddress, HostPart, Numbers, IpShaped;
    RunOne(cfg, [], ev);
    assert [] + [ev] == [ev];
    UsableIsGranted(cfg, map[], ev);
  }
}
