/** The tunnel address leases of the control-plane daemon: a map from client ids to addresses. */
module LeasePool {
  import opened Prelude

  /* Text */

  function Split(s: string, c: char): (parts: seq<string>)
    ensures |parts| > 0
  {
    if s == "" then [""]
    else
      var rest := Split(s[1..], c);
      if s[0] == c then [""] + rest else [[s[0]] + rest[0]] + rest[1..]
  }

  predicate IsDigit(c: char) {
    '0' <= c <= '9'
  }

  predicate AllDigits(s: string) {
    forall i | 0 <= i < |s| :: IsDigit(s[i])
  }

  /** One digit or more. */
  predicate IsNumber(s: string) {
    s != "" && AllDigits(s)
  }

  predicate AllNumbers(parts: seq<string>) {
    forall i | 0 <= i < |parts| :: IsNumber(parts[i])
  }

  predicate NoneLonger(parts: seq<string>, max: nat) {
    forall i | 0 <= i < |parts| :: |parts[i]| <= max
  }

  function ValueOf(s: string): nat
    requires AllDigits(s)
  {
    if s == "" then 0 else 10 * ValueOf(s[..|s| - 1]) + (s[|s| - 1] as int - '0' as int)
  }

  function Show(i: int): string {
    if i < 0 then "-" + ShowNat(-i) else ShowNat(i)
  }

  function ShowNat(n: nat): string {
    seq(|Digits(n)|, i requires 0 <= i < |Digits(n)| => '0' + Digits(n)[i] as char)
  }

  /** What String.prototype.trim removes. */
  predicate IsSpace(c: char) {
    var u := c as int;
    0x09 <= u <= 0x0D || u == 0x20 || u == 0xA0 || u == 0x1680 || 0x2000 <= u <= 0x200A
    || u == 0x2028 || u == 0x2029 || u == 0x202F || u == 0x205F || u == 0x3000 || u == 0xFEFF
  }

  function TrimStart(s: string): string {
    if s != "" && IsSpace(s[0]) then TrimStart(s[1..]) else s
  }

  function TrimEnd(s: string): string {
    if s != "" && IsSpace(s[|s| - 1]) then TrimEnd(s[..|s| - 1]) else s
  }

  function Trim(s: string): string {
    TrimEnd(TrimStart(s))
  }

  /* Requests */

  /** The configured gateway and the range of host numbers, both ends included. */
  datatype Config = Config(gateway: string, start: int, end: int)

  datatype Error = InvalidGateway | Exhausted

  function NormalizeClientId(value: string): Option<string> {
    if Trim(value) == "" then None else Some(Trim(value))
  }

  /** Four groups of one to three digits. */
  predicate IpShaped(s: string) {
    var p := Split(s, '.');
    |p| == 4 && AllNumbers(p) && NoneLonger(p, 3)
  }

  function NormalizeRequestedIp(value: string): Option<string> {
    if Trim(value) == "" || !IpShaped(Trim(value)) then None else Some(Trim(value))
  }

  /** The number of the fourth group of digits. */
  function HostPart(ip: string): Option<nat> {
    var p := Split(ip, '.');
    if |p| == 4 && AllNumbers(p) then Some(ValueOf(p[3])) else None
  }

  /* Allocation */

  /** Client id to address. */
  type Leases = map<string, string>

  /** The one name that cannot be a property of a JavaScript object literal by assignment. */
  const PROTO := "__proto__"

  /** The names that every object inherits. */
  const INHERITED: set<string> := {
    PROTO, "constructor", "hasOwnProperty", "isPrototypeOf", "propertyIsEnumerable", "toLocaleString", "toString",
    "valueOf", "__defineGetter__", "__defineSetter__", "__lookupGetter__", "__lookupSetter__"}

  function Used(leases: Leases): set<string> {
    leases.Values
  }

  predicate WellFormedGateway(cfg: Config) {
    |Split(cfg.gateway, '.')| == 4
  }

  function Candidate(cfg: Config, i: int): string
    requires WellFormedGateway(cfg)
  {
    var p := Split(cfg.gateway, '.');
    p[0] + "." + p[1] + "." + p[2] + "." + Show(i)
  }

  predicate Free(cfg: Config, leases: Leases, i: int)
    requires WellFormedGateway(cfg)
  {
    Candidate(cfg, i) != cfg.gateway && Candidate(cfg, i) !in Used(leases)
  }

  function FirstFree(cfg: Config, leases: Leases, i: int): Option<string>
    requires WellFormedGateway(cfg)
    decreases cfg.end - i
  {
    if i > cfg.end then None
    else if Free(cfg, leases, i) then Some(Candidate(cfg, i))
    else FirstFree(cfg, leases, i + 1)
  }

  /** A requested address can be had: its host number is in range, and it is neither taken nor the gateway. */
  predicate Usable(cfg: Config, leases: Leases, requested: Option<string>) {
    && requested.Some? && HostPart(requested.value).Some?
    && cfg.start <= HostPart(requested.value).value <= cfg.end
    && requested.value !in Used(leases) && requested.value != cfg.gateway
  }

  predicate Holds(leases: Leases, id: string) {
    id in leases && id != PROTO && leases[id] != ""
  }

  /** The address for a client that has none. */
  function Choose(cfg: Config, leases: Leases, requested: Option<string>): Result<string, Error> {
    if Usable(cfg, leases, requested) then Success(requested.value)
    else if !WellFormedGateway(cfg) then Failure(InvalidGateway)
    else match FirstFree(cfg, leases, cfg.start)
      case Some(ip) => Success(ip)
      case None => Failure(Exhausted)
  }

  /** Assigning to the name `__proto__` records nothing. */
  function Record(leases: Leases, id: string, ip: string): Leases {
    if id == PROTO then leases else leases[id := ip]
  }

  /** The new map and the address granted. */
  function Allocate(cfg: Config, leases: Leases, id: string, requested: Option<string>)
    : (Leases, Result<string, Error>)
  {
    if Holds(leases, id) then (leases, Success(leases[id]))
    else match Choose(cfg, leases, requested)
      case Success(ip) => (Record(leases, id, ip), Success(ip))
      case Failure(e) => (leases, Failure(e))
  }

  /** The new map, and whether the answer says that a lease was removed. */
  function Release(leases: Leases, id: Option<string>): (Leases, bool) {
    if id.None? || (id.value !in leases && id.value !in INHERITED) then (leases, false)
    else (leases - {id.value}, true)
  }

  class LeaseStore {
    const cfg: Config
    var leases: Leases

    constructor (cfg: Config)
      ensures this.cfg == cfg && leases == map[]
    {
      this.cfg, leases := cfg, map[];
    }

    /** `generated` is the id made up for a client that sends none. */
    method AllocateTunnelLease(clientId: string, requestedIp: string, generated: string)
      returns (r: Result<string, Error>)
      modifies this
      ensures
        var id := if NormalizeClientId(clientId).Some? then NormalizeClientId(clientId).value else generated;
        (leases, r) == Allocate(cfg, old(leases), id, NormalizeRequestedIp(requestedIp))
    {
      hide NormalizeClientId, NormalizeRequestedIp, HostPart, WellFormedGateway, Candidate;
      var given := NormalizeClientId(clientId);
      var id := if given.Some? then given.value else generated;
      var requested := NormalizeRequestedIp(requestedIp);
      if Holds(leases, id) {
        return Success(leases[id]);
      }
      var used := Used(leases);
      var choice: Option<string> := None;
      if requested.Some? {
        var host := HostPart(requested.value);
        if && host.Some? && cfg.start <= host.value <= cfg.end
           && requested.value !in used && requested.value != cfg.gateway
        {
          choice := requested;
        }
      }
      if choice.None? {
        if !WellFormedGateway(cfg) {
          return Failure(InvalidGateway);
        }
        var i := cfg.start;
        while i <= cfg.end && choice.None?
          invariant choice.None? ==> FirstFree(cfg, leases, i) == FirstFree(cfg, leases, cfg.start)
          invariant choice.Some? ==> FirstFree(cfg, leases, cfg.start) == choice
          decreases cfg.end - i, choice.None?
        {
          var candidate := Candidate(cfg, i);
          if candidate == cfg.gateway || candidate in used {
            i := i + 1;
          } else {
            choice := Some(candidate);
          }
        }
      }
      if choice.None? {
        return Failure(Exhausted);
      }
      if id != PROTO {
        leases := leases[id := choice.value];
      }
      return Success(choice.value);
    }

    method ReleaseTunnelLease(clientId: string) returns (removed: bool)
      modifies this
      ensures (leases, removed) == Release(old(leases), NormalizeClientId(clientId))
      ensures NormalizeClientId(clientId).Some? ==> NormalizeClientId(clientId).value !in leases
      ensures forall id | id in leases :: id in old(leases) && leases[id] == old(leases)[id]
      ensures forall id | id in old(leases) && Some(id) != NormalizeClientId(clientId) :: id in leases
    {
      hide NormalizeClientId;
      var id := NormalizeClientId(clientId);
      if id.None? {
        return false;
      }
      if id.value !in leases && id.value !in INHERITED {
        return false;
      }
      leases := leases - {id.value};
      return true;
    }
  }

  /* Distinct hosts have distinct candidates. */

  lemma ShowNatStart(n: nat)
    ensures ShowNat(n) != "" && IsDigit(ShowNat(n)[0])
  {
  }

  lemma DigitChar(c: digit, d: digit)
    requires '0' + c as char == '0' + d as char
    ensures c == d
  {
    assert ('0' + c as char) as int == 48 + c && ('0' + d as char) as int == 48 + d;
  }

  lemma ShowNatInjective(m: nat, n: nat)
    requires ShowNat(m) == ShowNat(n)
    ensures m == n
  {
    forall i | 0 <= i < |Digits(m)| ensures Digits(m)[i] == Digits(n)[i] {
      assert ShowNat(m)[i] == ShowNat(n)[i];
      DigitChar(Digits(m)[i], Digits(n)[i]);
    }
    assert |ShowNat(m)| == |ShowNat(n)|;
    assert Digits(m) == Digits(n);
    DigitsDetermine(m);
    DigitsDetermine(n);
  }

  lemma ShowInjective(i: int, j: int)
    requires Show(i) == Show(j)
    ensures i == j
  {
    hide ShowNat;
    var m, n := if i < 0 then -i else i, if j < 0 then -j else j;
    ShowNatStart(m);
    ShowNatStart(n);
    assert Show(i)[0] == Show(j)[0];
    if i < 0 {
      assert ShowNat(m) == Show(i)[1..] && ShowNat(n) == Show(j)[1..];
    }
    ShowNatInjective(m, n);
  }

  lemma CandidateInjective(cfg: Config, i: int, j: int)
    requires WellFormedGateway(cfg) && Candidate(cfg, i) == Candidate(cfg, j)
    ensures i == j
  {
    hide Show;
    var p := Split(cfg.gateway, '.');
    var base := p[0] + "." + p[1] + "." + p[2] + ".";
    assert Candidate(cfg, i)[|base|..] == Show(i) && Candidate(cfg, j)[|base|..] == Show(j);
    ShowInjective(i, j);
  }

  /* What the text functions mean */

  function Joined(parts: seq<string>, c: char): string
    requires parts != []
  {
    if |parts| == 1 then parts[0] else parts[0] + [c] + Joined(parts[1..], c)
  }

  /** Splitting cuts at every separator: the parts hold none, and joined again they are the text. */
  lemma {:induction false} SplitExactly(s: string, c: char)
    ensures Joined(Split(s, c), c) == s && forall i | 0 <= i < |Split(s, c)| :: c !in Split(s, c)[i]
  {
    if s == "" {
    } else {
      SplitExactly(s[1..], c);
      var rest := Split(s[1..], c);
      assert [s[0]] + s[1..] == s;
      if s[0] == c {
        assert Split(s, c) == [""] + rest;
        JoinedCons("", rest, c);
      } else {
        assert Split(s, c) == [[s[0]] + rest[0]] + rest[1..];
        JoinedLonger(s[0], rest, c);
      }
    }
  }

  lemma JoinedCons(first: string, rest: seq<string>, c: char)
    requires rest != []
    ensures Joined([first] + rest, c) == first + [c] + Joined(rest, c)
  {
    assert ([first] + rest)[1..] == rest;
  }

  lemma JoinedLonger(d: char, parts: seq<string>, c: char)
    requires parts != []
    ensures Joined([[d] + parts[0]] + parts[1..], c) == [d] + Joined(parts, c)
  {
    assert ([[d] + parts[0]] + parts[1..])[1..] == parts[1..];
  }

  /** Parts without a separator are what their joined text splits into. */
  lemma {:induction false} SplitJoined(parts: seq<string>, c: char)
    requires parts != [] && forall i | 0 <= i < |parts| :: c !in parts[i]
    ensures Split(Joined(parts, c), c) == parts
    decreases |parts|
  {
    if |parts| > 1 {
      SplitJoined(parts[1..], c);
      SplitAt(parts[0], c, Joined(parts[1..], c));
      assert parts == [parts[0]] + parts[1..];
    } else {
      SplitWhole(parts[0], c);
      assert parts == [parts[0]];
    }
  }

  lemma {:induction false} SplitWhole(a: string, c: char)
    requires c !in a
    ensures Split(a, c) == [a]
  {
    if a == "" {
    } else {
      SplitWhole(a[1..], c);
      assert a[0] != c && [a[0]] + a[1..] == a;
    }
  }

  lemma {:induction false} SplitAt(a: string, c: char, b: string)
    requires c !in a
    ensures Split(a + [c] + b, c) == [a] + Split(b, c)
  {
    var s := a + [c] + b;
    if a == "" {
      assert s[1..] == b;
    } else {
      SplitAt(a[1..], c, b);
      assert a[0] != c && s[1..] == a[1..] + [c] + b && [a[0]] + a[1..] == a;
    }
  }

  predicate AllSpace(s: string) {
    forall i | 0 <= i < |s| :: IsSpace(s[i])
  }

  predicate Trimmed(s: string) {
    s != "" ==> !IsSpace(s[0]) && !IsSpace(s[|s| - 1])
  }

  /** Trimming removes white space at both ends and stops at the first thing that is none. */
  lemma TrimExactly(s: string) returns (before: string, after: string)
    ensures s == before + Trim(s) + after && AllSpace(before) && AllSpace(after) && Trimmed(Trim(s))
  {
    before := TrimStartExactly(s);
    after := TrimEndExactly(TrimStart(s));
  }

  lemma {:induction false} TrimStartExactly(s: string) returns (before: string)
    ensures s == before + TrimStart(s) && AllSpace(before)
    ensures TrimStart(s) != "" ==> !IsSpace(TrimStart(s)[0])
  {
    if s != "" && IsSpace(s[0]) {
      var b := TrimStartExactly(s[1..]);
      before := [s[0]] + b;
    } else {
      before := "";
    }
  }

  lemma {:induction false} TrimEndExactly(s: string) returns (after: string)
    ensures s == TrimEnd(s) + after && AllSpace(after)
    ensures TrimEnd(s) != "" ==> TrimEnd(s)[0] == s[0] && !IsSpace(TrimEnd(s)[|TrimEnd(s)| - 1])
  {
    if s != "" && IsSpace(s[|s| - 1]) {
      var a := TrimEndExactly(s[..|s| - 1]);
      after := a + [s[|s| - 1]];
    } else {
      after := "";
    }
  }

  lemma {:induction false} ValueOfDigits(s: string, ds: seq<digit>)
    requires |s| == |ds| && AllDigits(s) && forall i | 0 <= i < |s| :: s[i] as int == '0' as int + ds[i]
    ensures ValueOf(s) == FromDigits(ds)
    decreases |s|
  {
    if s == "" {
    } else {
      ValueOfDigits(s[..|s| - 1], ds[..|ds| - 1]);
    }
  }

  lemma ShownDigits(n: nat)
    ensures |ShowNat(n)| == |Digits(n)| && AllDigits(ShowNat(n)) && '.' !in ShowNat(n)
    ensures ValueOf(ShowNat(n)) == n
  {
    forall i | 0 <= i < |ShowNat(n)| ensures ShowNat(n)[i] as int == '0' as int + Digits(n)[i] {
      assert ShowNat(n)[i] == '0' + Digits(n)[i] as char;
    }
    ValueOfDigits(ShowNat(n), Digits(n));
    DigitsDetermine(n);
  }

  /** The host number of the candidate for host i is i: asking for a candidate asks for its host. */
  lemma HostOfCandidate(cfg: Config, i: nat)
    requires WellFormedGateway(cfg) && HostPart(cfg.gateway).Some?
    ensures HostPart(Candidate(cfg, i)) == Some(i)
  {
    var p := Split(cfg.gateway, '.');
    SplitExactly(cfg.gateway, '.');
    ShownDigits(i);
    var parts := [p[0], p[1], p[2], ShowNat(i)];
    hide Split, ShowNat, AllDigits, ValueOf;
    JoinFour(p[0], p[1], p[2], ShowNat(i));
    SplitJoined(parts, '.');
  }

  lemma JoinFour(a: string, b: string, c: string, d: string)
    ensures Joined([a, b, c, d], '.') == a + "." + b + "." + c + "." + d
  {
    calc {
      Joined([a, b, c, d], '.');
      { assert [a, b, c, d][1..] == [b, c, d]; }
      a + ['.'] + Joined([b, c, d], '.');
      { assert [b, c, d][1..] == [c, d]; }
      a + ['.'] + (b + ['.'] + Joined([c, d], '.'));
      { assert [c, d][1..] == [d]; }
      a + ['.'] + (b + ['.'] + (c + ['.'] + d));
      a + "." + b + "." + c + "." + d;
    }
  }

  function Count(s: string, c: char): nat {
    if s == "" then 0 else Count(s[1..], c) + if s[0] == c then 1 else 0
  }

  lemma {:induction false} SplitCounts(s: string, c: char)
    ensures |Split(s, c)| == 1 + Count(s, c)
  {
    if s == "" {
    } else {
      SplitCounts(s[1..], c);
    }
  }

  /** Without a usable request, a new client is refused for the gateway's sake exactly when that has not three dots. */
  lemma GatewayIsRefused(cfg: Config, leases: Leases, id: string, requested: Option<string>)
    requires !Holds(leases, id) && !Usable(cfg, leases, requested)
    ensures Allocate(cfg, leases, id, requested).1 == Failure(InvalidGateway) <==> Count(cfg.gateway, '.') != 3
  {
    SplitCounts(cfg.gateway, '.');
    hide Usable, Split, Count, FirstFree;
  }

  /** White space as ECMAScript's trim has it. */
  lemma SpaceExactly(c: char)
    ensures IsSpace(c) <==> c as int in {
      0x09, 0x0A, 0x0B, 0x0C, 0x0D, 0x20, 0xA0, 0x1680, 0x2000, 0x2001, 0x2002, 0x2003, 0x2004, 0x2005, 0x2006, 0x2007,
      0x2008, 0x2009, 0x200A, 0x2028, 0x2029, 0x202F, 0x205F, 0x3000, 0xFEFF}
  {
  }

  /* Exactness of the pool */

  /** The search finds the lowest free host of its range, and fails exactly when there is none. */
  lemma {:induction false} FirstFreeIsLowest(cfg: Config, leases: Leases, i: int)
    requires WellFormedGateway(cfg)
    ensures FirstFree(cfg, leases, i).None? <==> forall j: int | i <= j <= cfg.end :: !Free(cfg, leases, j)
    ensures FirstFree(cfg, leases, i).Some? ==>
            exists j: int | i <= j <= cfg.end ::
              FirstFree(cfg, leases, i) == Some(Candidate(cfg, j)) && Free(cfg, leases, j) &&
              forall k: int | i <= k < j :: !Free(cfg, leases, k)
    decreases cfg.end - i
  {
    hide Free, Candidate;
    if i <= cfg.end && !Free(cfg, leases, i) {
      FirstFreeIsLowest(cfg, leases, i + 1);
    }
  }

  /**
   * With a well-formed gateway, allocation for a new client fails exactly when its request is
   * unusable and every host of the range is the gateway's or taken; a choice not asked for is the
   * lowest free host.
   */
  lemma AllocationExactness(cfg: Config, leases: Leases, id: string, requested: Option<string>)
    requires WellFormedGateway(cfg) && !Holds(leases, id)
    ensures
      var r := Allocate(cfg, leases, id, requested).1;
      && (r.Failure? <==>
        !Usable(cfg, leases, requested) && forall i: int | cfg.start <= i <= cfg.end :: !Free(cfg, leases, i))
      && (r.Success? ==>
        if Usable(cfg, leases, requested) then r.value == requested.value
        else exists i: int | cfg.start <= i <= cfg.end ::
               && r.value == Candidate(cfg, i) && Free(cfg, leases, i)
               && forall k: int | cfg.start <= k < i :: !Free(cfg, leases, k))
  {
    hide Free, Candidate, Usable, WellFormedGateway;
    FirstFreeIsLowest(cfg, leases, cfg.start);
  }

  /** The hosts that can be leased at all. */
  function Hosts(cfg: Config): set<int>
    requires WellFormedGateway(cfg)
  {
    set i: int | cfg.start <= i <= cfg.end && Candidate(cfg, i) != cfg.gateway
  }

  lemma {:induction false} ImageSize(cfg: Config, hosts: set<int>, ips: set<string>)
    requires WellFormedGateway(cfg) && forall i: int | i in hosts :: Candidate(cfg, i) in ips
    ensures |hosts| <= |ips|
    decreases |hosts|
  {
    hide Candidate;
    if i: int :| i in hosts {
      var c := Candidate(cfg, i);
      forall j: int | j in hosts - {i} ensures Candidate(cfg, j) in ips - {c} {
        if Candidate(cfg, j) == c {
          CandidateInjective(cfg, i, j);
        }
      }
      ImageSize(cfg, hosts - {i}, ips - {c});
    } else {
      assert forall i: int :: i !in hosts;
      assert hosts <= {};
    }
  }

  lemma {:induction false} ValuesSize(leases: Leases)
    ensures |leases.Values| <= |leases|
    decreases |leases|
  {
    if k: string :| k in leases {
      var rest := leases - {k};
      assert rest.Keys == leases.Keys - {k};
      assert |rest| == |rest.Keys| && |leases| == |leases.Keys|;
      ValuesSize(rest);
      assert leases.Values <= rest.Values + {leases[k]} by {
        forall v | v in leases.Values ensures v in rest.Values + {leases[k]} {
          var j: string :| j in leases && leases[j] == v;
          assert j != k ==> j in rest && rest[j] == v;
        }
      }
      SubsetSize(leases.Values, rest.Values + {leases[k]});
    } else {
      assert leases == map[];
      assert leases.Values == {};
    }
  }

  lemma {:induction false} SubsetSize(a: set<string>, b: set<string>)
    requires a <= b
    ensures |a| <= |b|
    decreases |a|
  {
    if x: string :| x in a {
      SubsetSize(a - {x}, b - {x});
    }
  }

  /** While there are fewer leases than hosts, no allocation fails. */
  lemma PoolNotExhausted(cfg: Config, leases: Leases, id: string, requested: Option<string>)
    requires WellFormedGateway(cfg) && |leases| < |Hosts(cfg)|
    ensures Allocate(cfg, leases, id, requested).1.Success?
  {
    hide Candidate, WellFormedGateway, Usable;
    if !Holds(leases, id) && Allocate(cfg, leases, id, requested).1.Failure? {
      AllocationExactness(cfg, leases, id, requested);
      forall i: int | i in Hosts(cfg) ensures Candidate(cfg, i) in leases.Values {
        assert !Free(cfg, leases, i);
      }
      ImageSize(cfg, Hosts(cfg), leases.Values);
      ValuesSize(leases);
    }
  }

  /** Whatever the client is granted is on record for it afterwards, except for the one name that records nothing. */
  lemma GrantIsRecorded(cfg: Config, leases: Leases, id: string, requested: Option<string>)
    requires Allocate(cfg, leases, id, requested).1.Success? && Sound(cfg, leases)
    ensures
      var (leases', r) := Allocate(cfg, leases, id, requested);
      (id in leases' && leases'[id] == r.value) <==> id != "__proto__"
  {
  }

  /* Runs */

  /** Two clients never hold one address, the gateway is never leased, and every lease names an address. */
  predicate Sound(cfg: Config, leases: Leases) {
    && (forall a, b | a in leases && b in leases && leases[a] == leases[b] :: a == b)
    && (forall a | a in leases :: leases[a] != "" && leases[a] != cfg.gateway)
    && PROTO !in leases
  }

  datatype Event =
    | Allocated(clientId: string, requestedIp: string, generated: string)
    | Released(clientId: string)

  function Client(ev: Event): Option<string> {
    match ev
    case Allocated(clientId, _, generated) =>
      if NormalizeClientId(clientId).Some? then NormalizeClientId(clientId) else Some(generated)
    case Released(clientId) => NormalizeClientId(clientId)
  }

  function Step(cfg: Config, leases: Leases, ev: Event): Leases {
    match ev
    case Allocated(_, requestedIp, _) => Allocate(cfg, leases, Client(ev).value, NormalizeRequestedIp(requestedIp)).0
    case Released(_) => Release(leases, Client(ev)).0
  }

  function Run(cfg: Config, events: seq<Event>): Leases {
    if events == [] then map[] else Step(cfg, Run(cfg, events[..|events| - 1]), events[|events| - 1])
  }

  lemma ChoiceIsFree(cfg: Config, leases: Leases, requested: Option<string>)
    requires Choose(cfg, leases, requested).Success?
    requires requested.Some? ==> requested.value != ""
    ensures
      var ip := Choose(cfg, leases, requested).value;
      ip != "" && ip != cfg.gateway && ip !in leases.Values
  {
    if !Usable(cfg, leases, requested) {
      FirstFreeIsLowest(cfg, leases, cfg.start);
    }
  }

  lemma StepSound(cfg: Config, leases: Leases, ev: Event)
    requires Sound(cfg, leases)
    ensures Sound(cfg, Step(cfg, leases, ev))
  {
    if ev.Allocated? && !Holds(leases, Client(ev).value) {
      var requested := NormalizeRequestedIp(ev.requestedIp);
      hide Usable, Candidate, FirstFree, WellFormedGateway, NormalizeClientId, NormalizeRequestedIp;
      RequestNotEmpty(ev.requestedIp);
      if Choose(cfg, leases, requested).Success? {
        ChoiceIsFree(cfg, leases, requested);
      }
    }
  }

  lemma RequestNotEmpty(value: string)
    ensures NormalizeRequestedIp(value).Some? ==> NormalizeRequestedIp(value).value != ""
  {
  }

  /** In every reachable state distinct clients hold distinct addresses, and none holds the gateway's. */
  lemma {:induction false} LeaseSafety(cfg: Config, events: seq<Event>)
    ensures Sound(cfg, Run(cfg, events))
  {
    if events == [] {
    } else {
      LeaseSafety(cfg, events[..|events| - 1]);
      StepSound(cfg, Run(cfg, events[..|events| - 1]), events[|events| - 1]);
    }
  }

  /**
   * After a release the client has no lease, every other client has what it had, and the answer says so:
   * it says removed exactly for a client with a lease and for a name that every object inherits.
   */
  lemma ReleaseFrees(cfg: Config, leases: Leases, clientId: string)
    ensures
      var id := NormalizeClientId(clientId);
      var leases' := Step(cfg, leases, Released(clientId));
      && (id.Some? ==> id.value !in leases')
      && (forall other :: other in leases' <==> other in leases && id != Some(other))
      && (forall other | other in leases' :: leases'[other] == leases[other])
      && (Release(leases, id).1 <==>
        && id.Some?
        && (id.value in leases || id.value in {
          "__proto__", "constructor", "hasOwnProperty", "isPrototypeOf", "propertyIsEnumerable", "toLocaleString",
          "toString", "valueOf", "__defineGetter__", "__defineSetter__", "__lookupGetter__", "__lookupSetter__"}))
  {
    hide NormalizeClientId;
  }

  /** An allocation changes nothing but the lease of its client, and a failed one nothing at all. */
  lemma AllocationTouchesOne(cfg: Config, leases: Leases, id: string, requested: Option<string>)
    ensures
      var (leases', r) := Allocate(cfg, leases, id, requested);
      && (forall other | other != id :: other in leases' <==> other in leases)
      && (forall other | other != id && other in leases :: leases'[other] == leases[other])
      && (r.Failure? || Holds(leases, id) ==> leases' == leases)
  {
    hide Choose;
  }

  /**
   * In every run, an address that is released is free again: the next client that requests it gets it, if
   * its host is in range, and it counts as free for an automatic choice.
   */
  lemma ReleasedCanBeHad(cfg: Config, events: seq<Event>, clientId: string, next: Event)
    requires NormalizeClientId(clientId).Some? && NormalizeClientId(clientId).value in Run(cfg, events)
    ensures
      var ip := Run(cfg, events)[NormalizeClientId(clientId).value];
      var leases := Run(cfg, events + [Released(clientId)]);
      && ip !in leases.Values
      && (WellFormedGateway(cfg) ==> forall i: int | Candidate(cfg, i) == ip :: Free(cfg, leases, i))
      && (next.Allocated? && NormalizeRequestedIp(next.requestedIp) == Some(ip) &&
          HostPart(ip).Some? && cfg.start <= HostPart(ip).value <= cfg.end &&
          Client(next).value !in leases && Client(next).value != PROTO ==>
            Step(cfg, leases, next) == leases[Client(next).value := ip])
  {
    hide NormalizeClientId, NormalizeRequestedIp, HostPart, Candidate, WellFormedGateway, Run;
    var id := NormalizeClientId(clientId).value;
    var before, leases := Run(cfg, events), Run(cfg, events + [Released(clientId)]);
    LeaseSafety(cfg, events);
    RunOne(cfg, events, Released(clientId));
    ReleaseFrees(cfg, before, clientId);
    hide Step;
    forall other | other in leases ensures leases[other] != before[id] {
    }
    if next.Allocated? && NormalizeRequestedIp(next.requestedIp) == Some(before[id]) &&
       HostPart(before[id]).Some? && cfg.start <= HostPart(before[id]).value <= cfg.end &&
       Client(next).value !in leases && Client(next).value != PROTO {
      UsableIsGranted(cfg, leases, next);
    }
  }

  lemma RunOne(cfg: Config, events: seq<Event>, ev: Event)
    ensures Run(cfg, events + [ev]) == Step(cfg, Run(cfg, events), ev)
  {
    assert (events + [ev])[..|events|] == events;
    hide Step;
  }

  lemma UsableIsGranted(cfg: Config, leases: Leases, ev: Event)
    requires ev.Allocated? && Client(ev).value !in leases && Client(ev).value != PROTO
    requires Usable(cfg, leases, NormalizeRequestedIp(ev.requestedIp))
    ensures Step(cfg, leases, ev) == leases[Client(ev).value := NormalizeRequestedIp(ev.requestedIp).value]
  {
    hide NormalizeClientId, NormalizeRequestedIp, Usable;
  }

  /* Client ids */

  /** White space around a client id does not count. */
  lemma ClientIsTrimmed(before: string, id: string, after: string, requestedIp: string, generated: string)
    requires AllSpace(before) && AllSpace(after) && id != "" && Trimmed(id)
    ensures Client(Allocated(before + id + after, requestedIp, generated)) == Some(id)
    ensures Client(Released(before + id + after)) == Some(id)
  {
    TrimIs(before, id, after);
    hide Trim;
  }

  /** A client that sends no id gets the generated one, and a release without an id is for nobody. */
  lemma NoClient(blank: string, requestedIp: string, generated: string)
    requires AllSpace(blank)
    ensures Client(Allocated(blank, requestedIp, generated)) == Some(generated)
    ensures Client(Released(blank)) == None
  {
    TrimStartIs(blank, "");
    assert blank + "" == blank;
  }

  lemma TrimIs(before: string, id: string, after: string)
    requires AllSpace(before) && AllSpace(after) && id != "" && Trimmed(id)
    ensures Trim(before + id + after) == id
  {
    assert before + id + after == before + (id + after);
    TrimStartIs(before, id + after);
    TrimEndIs(id, after);
  }

  lemma {:induction false} TrimStartIs(before: string, rest: string)
    requires AllSpace(before) && (rest != "" ==> !IsSpace(rest[0]))
    ensures TrimStart(before + rest) == rest
  {
    hide IsSpace;
    if before == "" {
      assert before + rest == rest;
    } else {
      TrimStartIs(before[1..], rest);
      assert (before + rest)[1..] == before[1..] + rest && (before + rest)[0] == before[0];
    }
  }

  lemma {:induction false} TrimEndIs(rest: string, after: string)
    requires AllSpace(after) && (rest != "" ==> !IsSpace(rest[|rest| - 1]))
    ensures TrimEnd(rest + after) == rest
    decreases |after|
  {
    hide IsSpace;
    if after == "" {
      assert rest + after == rest;
    } else {
      var s, front := rest + after, after[..|after| - 1];
      TrimEndIs(rest, front);
      assert s[..|s| - 1] == rest + front && s[|s| - 1] == after[|after| - 1];
    }
  }

  /** A client's address stays the same until the client is released. */
  lemma {:induction false} LeaseStable(cfg: Config, events: seq<Event>, k: nat, id: string)
    requires k <= |events| && id in Run(cfg, events[..k])
    requires forall i | k <= i < |events| :: events[i].Released? ==> Client(events[i]) != Some(id)
    ensures id in Run(cfg, events) && Run(cfg, events)[id] == Run(cfg, events[..k])[id]
    decreases |events|
  {
    if k == |events| {
      assert events[..k] == events;
    } else {
      var before, ev := events[..|events| - 1], events[|events| - 1];
      assert before[..k] == events[..k];
      LeaseStable(cfg, before, k, id);
      LeaseSafety(cfg, before);
      StepStable(cfg, Run(cfg, before), ev, id);
    }
  }

  lemma StepStable(cfg: Config, leases: Leases, ev: Event, id: string)
    requires Sound(cfg, leases) && id in leases && (ev.Released? ==> Client(ev) != Some(id))
    ensures id in Step(cfg, leases, ev) && Step(cfg, leases, ev)[id] == leases[id]
  {
    hide Choose, NormalizeClientId, NormalizeRequestedIp;
  }
}
