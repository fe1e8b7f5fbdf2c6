/**
 * Appends to the chain. An append is two statements, reading the latest row and inserting the next
 * one, and any number of appends and initialisations run at once; the table's unique columns are
 * all that keeps them apart.
 */
module ChainAppends {
  import opened Prelude
  import opened JsonGrammar
  import opened StableJson
  import opened HashChain

  type MacFn = JsString -> JsString

  /** The table, keyed by its unique block_index. */
  type Rows = map<int, Row>

  predicate Falsy(s: Option<JsString>) {
    s.None? || s.value == []
  }

  /** Drops the properties with the given key. */
  function Without(fields: seq<Field>, k: JsString): seq<Field> {
    if fields == [] then []
    else if fields[0].key == k then Without(fields[1..], k)
    else [fields[0]] + Without(fields[1..], k)
  }

  /** `{ privateMemberId, ...payload }`: a member id in the payload itself wins. */
  function WithMember(mac: MacFn, userId: JsString, fields: seq<Field>): seq<Field> {
    var k := Js("privateMemberId");
    var v := if HasKey(fields, k) then Get(fields, k) else Str(mac(userId));
    [Field(k, v)] + Without(fields, k)
  }

  function BlockPayload(mac: MacFn, userId: Option<JsString>, fields: seq<Field>): Json {
    if Falsy(userId) then Obj(fields) else Obj(WithMember(mac, userId.value, fields))
  }

  function GenesisBlock(timestamp: JsString): Block {
    Block(0, timestamp, None, Js("GENESIS"),
          Obj([Field(Js("network"), Str(Js("blockchain-vpn"))),
               Field(Js("purpose"), Str(Js("private partner identity chain")))]),
          GenesisPreviousHash())
  }

  /** The row with the largest index is the one that the latest-row query returns. */
  ghost predicate IsLatest(rows: Rows, i: int) {
    i in rows && forall j: int | j in rows :: j <= i
  }

  function NextBlock(
    mac: MacFn, latest: Row, timestamp: JsString, userId: Option<JsString>, eventType: JsString, fields: seq<Field>)
    : Block
    requires latest.block.index <= MAX_STORED_INDEX
  {
    Block(latest.block.index + 1, timestamp, userId, eventType, BlockPayload(mac, userId, fields), latest.blockHash)
  }

  const USER_ID_WIDTH := 16
  const EVENT_TYPE_WIDTH := 64

  /** The number of characters that the database counts: a surrogate pair is one. */
  function Characters(s: JsString): nat {
    if s == [] then 0
    else if |s| > 1 && HighSurrogate(s[0]) && LowSurrogate(s[1]) then 1 + Characters(s[2..])
    else 1 + Characters(s[1..])
  }

  predicate FitsColumns(b: Block) {
    && (b.userId.Some? ==> Characters(b.userId.value) <= USER_ID_WIDTH)
    && Characters(b.eventType) <= EVENT_TYPE_WIDTH
  }

  /** Either unique column rejects a duplicate; an index or a text too large for its column is rejected too. */
  predicate Insertable(rows: Rows, row: Row) {
    && FitsColumns(row.block)
    && row.block.index !in rows && row.block.index <= MAX_STORED_INDEX
    && forall i: int | i in rows :: rows[i].blockHash != row.blockHash
  }

  /** What the database keeps of a payload: the same value, its keys in an order of its own. */
  predicate Kept(stored: Json, payload: Json) {
    WellFormed(stored) && Same(stored, payload)
  }

  function RowOf(H: HashFn, b: Block, stored: Json): Row {
    Row(b.(payload := stored), CalculateBlockHash(H, b))
  }

  function Insert(H: HashFn, rows: Rows, b: Block, stored: Json): Rows {
    var row := RowOf(H, b, stored);
    if Insertable(rows, row) then rows[b.index := row] else rows
  }

  /* Runs */

  datatype State = State(rows: Rows, inflight: seq<Block>)

  datatype Event =
    | InitCheck(timestamp: JsString)
    | CreateRead(latest: int, timestamp: JsString, userId: Option<JsString>, eventType: JsString, fields: seq<Field>)
    | Commit(k: nat, stored: Json, lost: bool)

  /**
   * `latest` is the answer of the latest-row query. A commit that is lost, whatever the database's
   * reason, inserts nothing.
   */
  ghost predicate Enabled(st: State, ev: Event) {
    match ev
    case InitCheck(_) => true
    case CreateRead(latest, _, _, _, fields) =>
      (st.rows != map[] ==> IsLatest(st.rows, latest)) && WellFormed(Obj(fields))
    case Commit(k, stored, _) => k < |st.inflight| && Kept(stored, st.inflight[k].payload)
  }

  /** Without a genesis row an append fails; with one, a repeated initialisation does nothing. */
  function Step(H: HashFn, mac: MacFn, st: State, ev: Event): State {
    match ev
    case InitCheck(timestamp) =>
      if 0 in st.rows then st else st.(inflight := st.inflight + [GenesisBlock(timestamp)])
    case CreateRead(latest, timestamp, userId, eventType, fields) =>
      if latest !in st.rows || st.rows[latest].block.index > MAX_STORED_INDEX then st
      else st.(inflight := st.inflight + [NextBlock(mac, st.rows[latest], timestamp, userId, eventType, fields)])
    case Commit(k, stored, lost) =>
      if k >= |st.inflight| then st
      else
        State(if lost then st.rows else Insert(H, st.rows, st.inflight[k], stored),
              st.inflight[..k] + st.inflight[k + 1..])
  }

  function Run(H: HashFn, mac: MacFn, events: seq<Event>): State {
    if events == [] then State(map[], [])
    else Step(H, mac, Run(H, mac, events[..|events| - 1]), events[|events| - 1])
  }

  ghost predicate Legal(H: HashFn, mac: MacFn, events: seq<Event>) {
    events == [] ||
    (Legal(H, mac, events[..|events| - 1]) &&
     Enabled(Run(H, mac, events[..|events| - 1]), events[|events| - 1]))
  }

  /* Invariant */

  /** The row fits on the row before it, or starts the chain. */
  predicate Fits(rows: Rows, b: Block) {
    if b.index == 0 then b.previousHash == GenesisPreviousHash()
    else b.index - 1 in rows && rows[b.index - 1].blockHash == b.previousHash
  }

  predicate RowOk(H: HashFn, rows: Rows, i: int)
    requires i in rows
  {
    var row := rows[i];
    && 0 <= i == row.block.index <= MAX_STORED_INDEX && WellFormed(row.block.payload)
    && row.blockHash == CalculateBlockHash(H, row.block) && Fits(rows, row.block)
  }

  predicate Chained(H: HashFn, rows: Rows) {
    forall i: int {:trigger RowOk(H, rows, i)} | i in rows :: RowOk(H, rows, i)
  }

  predicate FlightOk(rows: Rows, b: Block) {
    Fits(rows, b) && WellFormed(b.payload)
  }

  predicate Ok(H: HashFn, st: State) {
    Chained(H, st.rows) && forall k | 0 <= k < |st.inflight| :: FlightOk(st.rows, st.inflight[k])
  }

  /** A stored payload hashes like the payload that was hashed: the printer is canonical. */
  lemma StoredHash(H: HashFn, b: Block, stored: Json)
    requires WellFormed(b.payload) && Kept(stored, b.payload)
    ensures CalculateBlockHash(H, b.(payload := stored)) == CalculateBlockHash(H, b)
  {
    TextDeterminesBlock(b.(payload := stored), b);
  }

  lemma InsertOk(H: HashFn, rows: Rows, b: Block, stored: Json)
    requires Chained(H, rows) && FlightOk(rows, b) && Kept(stored, b.payload)
    ensures
      var rows' := Insert(H, rows, b, stored);
      && Chained(H, rows') && rows.Keys <= rows'.Keys && forall i: int | i in rows :: rows'[i] == rows[i]
  {
    hide CalculateBlockHash, WellFormed, Same, GenesisPreviousHash;
    StoredHash(H, b, stored);
    KeptWellFormed(stored, b.payload);
    var row, rows' := RowOf(H, b, stored), Insert(H, rows, b, stored);
    if Insertable(rows, row) {
      forall i: int | i in rows' ensures RowOk(H, rows', i) {
        if i != b.index {
          assert RowOk(H, rows, i);
        } else {
          NewRowOk(H, rows, b, stored);
        }
      }
    }
  }

  lemma NewRowOk(H: HashFn, rows: Rows, b: Block, stored: Json)
    requires Chained(H, rows) && FlightOk(rows, b) && Kept(stored, b.payload) && Insertable(rows, RowOf(H, b, stored))
    ensures RowOk(H, rows[b.index := RowOf(H, b, stored)], b.index)
  {
    hide CalculateBlockHash, WellFormed, Same, GenesisPreviousHash;
    if b.index != 0 {
      assert RowOk(H, rows, b.index - 1);
    }
    StoredHash(H, b, stored);
    KeptWellFormed(stored, b.payload);
  }

  /** A block that fits goes on fitting while rows are only added. */
  lemma FlightKept(rows: Rows, rows': Rows, b: Block)
    requires FlightOk(rows, b) && rows.Keys <= rows'.Keys && forall i: int | i in rows :: rows'[i] == rows[i]
    ensures FlightOk(rows', b)
  {
  }

  lemma KeptWellFormed(stored: Json, payload: Json)
    requires Kept(stored, payload)
    ensures WellFormed(stored)
  {
  }

  lemma {:induction false} WithoutKeeps(fields: seq<Field>, k: JsString)
    requires WellFormed(Obj(fields))
    ensures WellFormed(Obj(Without(fields, k))) && !HasKey(Without(fields, k), k)
    ensures forall i | 0 <= i < |Without(fields, k)| ::
              exists j | 0 <= j < |fields| :: fields[j] == Without(fields, k)[i]
  {
    if fields == [] {
    } else {
      var rest := fields[1..];
      assert WellFormed(Obj(rest));
      WithoutKeeps(rest, k);
      var w := Without(rest, k);
      forall i | 0 <= i < |w| ensures exists j | 0 < j < |fields| :: fields[j] == w[i] {
        var j :| 0 <= j < |rest| && rest[j] == w[i];
        assert fields[j + 1] == w[i];
      }
    }
  }

  lemma PayloadWellFormed(mac: MacFn, userId: Option<JsString>, fields: seq<Field>)
    requires WellFormed(Obj(fields))
    ensures WellFormed(BlockPayload(mac, userId, fields))
  {
    if !Falsy(userId) {
      var k := Js("privateMemberId");
      WithoutKeeps(fields, k);
      if HasKey(fields, k) {
        GetWellFormed(fields, k);
      }
    }
  }

  lemma {:induction false} WithoutHas(fields: seq<Field>, k: JsString, other: JsString)
    requires other != k
    ensures HasKey(Without(fields, k), other) <==> HasKey(fields, other)
    ensures HasKey(fields, other) ==> Get(Without(fields, k), other) == Get(fields, other)
  {
    if fields == [] {
    } else {
      WithoutHas(fields[1..], k, other);
      HasKeyCons(fields, other);
      if fields[0].key != k {
        var w := Without(fields, k);
        assert w[0] == fields[0] && w[1..] == Without(fields[1..], k);
        HasKeyCons(w, other);
      }
    }
  }

  lemma HasKeyCons(fields: seq<Field>, k: JsString)
    requires fields != []
    ensures HasKey(fields, k) <==> fields[0].key == k || HasKey(fields[1..], k)
    ensures HasKey(fields, k) ==>
            Get(fields, k) == if fields[0].key == k then fields[0].value else Get(fields[1..], k)
  {
    if i :| 0 <= i < |fields[1..]| && fields[1..][i].key == k {
      assert fields[i + 1].key == k;
    }
    if i :| 0 < i < |fields| && fields[i].key == k {
      assert fields[1..][i - 1].key == k;
    }
  }

  predicate IsMember(userId: Option<JsString>, k: JsString) {
    userId.Some? && userId.value != [] && Spells(k, "privateMemberId")
  }

  /**
   * A block of a user names the user's private member id, unless the payload brings its own; all
   * other properties are the payload's. Without a user the payload is taken as it is.
   */
  lemma PayloadProperties(mac: MacFn, userId: Option<JsString>, fields: seq<Field>, k: JsString)
    ensures
      var payload := BlockPayload(mac, userId, fields);
      && payload.Obj?
      && (HasKey(payload.fields, k) <==> HasKey(fields, k) || IsMember(userId, k))
      && (HasKey(fields, k) ==> Get(payload.fields, k) == Get(fields, k))
      && (!HasKey(fields, k) && IsMember(userId, k) ==> Get(payload.fields, k) == Str(mac(userId.value)))
    ensures userId.None? || userId.value == [] ==> BlockPayload(mac, userId, fields) == Obj(fields)
  {
    var member := Js("privateMemberId");
    JsSpells("privateMemberId");
    assert k == member <==> Spells(k, "privateMemberId");
    hide Js;
    if userId.Some? && userId.value != [] {
      var o := BlockPayload(mac, userId, fields).fields;
      assert o[0].key == member && o[1..] == Without(fields, member);
      HasKeyCons(o, k);
      if k != member {
        WithoutHas(fields, member, k);
      }
    }
  }

  /** A composed payload as the database keeps it, property by property. */
  predicate Composed(mac: MacFn, userId: Option<JsString>, fields: seq<Field>, payload: Json, k: JsString) {
    && payload.Obj?
    && (HasKey(payload.fields, k) <==> HasKey(fields, k) || IsMember(userId, k))
    && (HasKey(fields, k) ==> Same(Get(payload.fields, k), Get(fields, k)))
    && (!HasKey(fields, k) && IsMember(userId, k) ==> Get(payload.fields, k) == Str(mac(userId.value)))
  }

  lemma KeptProperties(mac: MacFn, userId: Option<JsString>, fields: seq<Field>, stored: Json, k: JsString)
    requires WellFormed(Obj(fields)) && Kept(stored, BlockPayload(mac, userId, fields))
    ensures Composed(mac, userId, fields, stored, k)
  {
    var payload := BlockPayload(mac, userId, fields);
    PayloadProperties(mac, userId, fields, k);
    PayloadWellFormed(mac, userId, fields);
    assert stored.Obj?;
    SameKeys(stored.fields, payload.fields, k);
    if HasKey(payload.fields, k) {
      GetSame(stored.fields, payload.fields, k);
    }
    hide BlockPayload, WellFormed, Spells;
  }

  lemma GenesisOk(rows: Rows, timestamp: JsString)
    ensures FlightOk(rows, GenesisBlock(timestamp))
  {
    assert |Js("network")| == |Js("purpose")| && Js("network")[0] != Js("purpose")[0];
  }

  lemma CommitOk(H: HashFn, st: State, k: nat, stored: Json)
    requires Ok(H, st) && k < |st.inflight| && Kept(stored, st.inflight[k].payload)
    ensures
      var rows' := Insert(H, st.rows, st.inflight[k], stored);
      && Ok(H, State(rows', st.inflight[..k] + st.inflight[k + 1..]))
      && st.rows.Keys <= rows'.Keys && forall i: int | i in st.rows :: rows'[i] == st.rows[i]
  {
    hide Chained, FlightOk, Kept, Insert;
    var rows' := Insert(H, st.rows, st.inflight[k], stored);
    InsertOk(H, st.rows, st.inflight[k], stored);
    var rest := st.inflight[..k] + st.inflight[k + 1..];
    forall j | 0 <= j < |rest| ensures FlightOk(rows', rest[j]) {
      FlightKept(st.rows, rows', st.inflight[if j < k then j else j + 1]);
    }
  }

  lemma StepOk(H: HashFn, mac: MacFn, st: State, ev: Event)
    requires Ok(H, st) && Enabled(st, ev)
    ensures
      var st' := Step(H, mac, st, ev);
      Ok(H, st') && st.rows.Keys <= st'.rows.Keys && forall i: int | i in st.rows :: st'.rows[i] == st.rows[i]
  {
    hide CalculateBlockHash, WellFormed, Same, Insert, BlockPayload, GenesisBlock;
    match ev
    case InitCheck(timestamp) => GenesisOk(st.rows, timestamp);
    case CreateRead(latest, timestamp, userId, eventType, fields) =>
      PayloadWellFormed(mac, userId, fields);
      if latest in st.rows {
        assert RowOk(H, st.rows, latest);
      }
    case Commit(k, stored, lost) => CommitOk(H, st, k, stored);
  }

  lemma {:induction false} RunOk(H: HashFn, mac: MacFn, events: seq<Event>)
    requires Legal(H, mac, events)
    ensures Ok(H, Run(H, mac, events))
  {
    if events == [] {
    } else {
      RunOk(H, mac, events[..|events| - 1]);
      StepOk(H, mac, Run(H, mac, events[..|events| - 1]), events[|events| - 1]);
    }
  }

  /* The rows in order of index */

  predicate Contiguous(rows: Rows) {
    forall i: int | i in rows :: 0 <= i && (i > 0 ==> i - 1 in rows)
  }

  lemma {:induction false} Downward(rows: Rows, i: int, j: int)
    requires Contiguous(rows) && i in rows && 0 <= j <= i
    ensures j in rows
    decreases i - j
  {
    if j == i {
    } else {
      Downward(rows, i, j + 1);
    }
  }

  lemma {:induction false} KeysBelow(keys: set<int>, n: nat)
    requires forall i: int :: i in keys <==> 0 <= i < n
    ensures |keys| == n
  {
    if n > 0 {
      var rest := keys - {n - 1};
      forall i: int ensures i in rest <==> 0 <= i < n - 1 {
        assert i in keys <==> 0 <= i < n;
      }
      KeysBelow(rest, n - 1);
    } else {
      forall i: int ensures i !in keys {
        assert i in keys <==> 0 <= i < n;
      }
      assert keys <= {};
    }
  }

  lemma {:induction false} UpperBound(keys: set<int>) returns (n: nat)
    ensures forall i: int | i in keys :: i < n
    decreases |keys|
  {
    n := 0;
    if k: int :| k in keys {
      var rest := keys - {k};
      var m := UpperBound(rest);
      n := if k < m then m else k + 1;
      forall i: int | i in keys ensures i < n {
        assert i != k ==> i in rest;
      }
    }
  }

  /** A downward closed table has exactly the indices below its size. */
  lemma IndicesBelowSize(rows: Rows)
    requires Contiguous(rows)
    ensures forall i: int :: i in rows <==> 0 <= i < |rows|
  {
    var n := UpperBound(rows.Keys);
    while n > 0 && n - 1 !in rows
      invariant forall i: int | i in rows :: i < n
    {
      n := n - 1;
    }
    forall i: int ensures i in rows <==> 0 <= i < n {
      if 0 <= i < n {
        Downward(rows, n - 1, i);
      }
    }
    KeysBelow(rows.Keys, n);
    assert |rows| == |rows.Keys|;
  }

  /** The rows by ascending index, the order in which the verifier reads them. */
  function InOrder(rows: Rows): seq<Row>
    requires forall i: int | 0 <= i < |rows| :: i in rows
  {
    seq(|rows|, i requires 0 <= i < |rows| => rows[i])
  }

  /**
   * Chain safety. Whatever interleaving of appends and initialisations, the stored indices are
   * exactly 0 to n - 1 and the rows in order form a chain that verifies.
   */
  lemma ChainSafety(H: HashFn, mac: MacFn, events: seq<Event>)
    requires Legal(H, mac, events)
    ensures
      var rows := Run(H, mac, events).rows;
      && (forall i: int :: i in rows <==> 0 <= i < |rows|)
      && AllLinked(H, InOrder(rows))
      && forall i: nat | i < |rows| :: InOrder(rows)[i].block.index == i
  {
    RunOk(H, mac, events);
    ChainedInOrder(H, Run(H, mac, events).rows);
  }

  lemma ChainedInOrder(H: HashFn, rows: Rows)
    requires Chained(H, rows)
    ensures forall i: int :: i in rows <==> 0 <= i < |rows|
    ensures AllLinked(H, InOrder(rows)) && forall i: nat | i < |rows| :: InOrder(rows)[i].block.index == i
  {
    hide CalculateBlockHash, WellFormed, GenesisPreviousHash;
    forall i: int | i in rows ensures 0 <= i && (i > 0 ==> i - 1 in rows) {
      assert RowOk(H, rows, i);
    }
    IndicesBelowSize(rows);
    forall i: nat | i < |rows| ensures Linked(H, InOrder(rows), i) && InOrder(rows)[i].block.index == i {
      assert RowOk(H, rows, i);
    }
  }

  /** Rows are never changed or dropped: what a run has stored, every longer run still has. */
  lemma {:induction false} AppendOnly(H: HashFn, mac: MacFn, events: seq<Event>, k: nat, i: int)
    requires Legal(H, mac, events) && k <= |events| && i in Run(H, mac, events[..k]).rows
    ensures i in Run(H, mac, events).rows && Run(H, mac, events).rows[i] == Run(H, mac, events[..k]).rows[i]
    decreases |events|
  {
    if k == |events| {
      assert events[..k] == events;
    } else {
      var before := events[..|events| - 1];
      assert before[..k] == events[..k];
      AppendOnly(H, mac, before, k, i);
      RunOk(H, mac, before);
      StepOk(H, mac, Run(H, mac, before), events[|events| - 1]);
    }
  }

  /**
   * In every reachable state, whatever else is in flight, the insert of an append succeeds exactly when
   * its block is the next one still, there is an index left, its texts fit their columns, and no stored
   * row has its hash.
   */
  lemma AppendSucceeds(H: HashFn, mac: MacFn, events: seq<Event>, k: nat, stored: Json)
    requires Legal(H, mac, events) && k < |Run(H, mac, events).inflight|
    requires Kept(stored, Run(H, mac, events).inflight[k].payload)
    ensures
      var st := Run(H, mac, events);
      var b := st.inflight[k];
      Step(H, mac, st, Commit(k, stored, false)).rows ==
        if b.index == |st.rows| <= 0x7FFF_FFFF &&
           (b.userId.Some? ==> Characters(b.userId.value) <= 16) && Characters(b.eventType) <= 64 &&
           forall i: int | i in st.rows :: st.rows[i].blockHash != CalculateBlockHash(H, b)
        then st.rows[b.index := RowOf(H, b, stored)] else st.rows
  {
    hide CalculateBlockHash, WellFormed, Same, Characters;
    var st := Run(H, mac, events);
    RunOk(H, mac, events);
    ChainedInOrder(H, st.rows);
    assert FlightOk(st.rows, st.inflight[k]);
  }

  lemma RunMore(H: HashFn, mac: MacFn, events: seq<Event>, ev: Event)
    requires Legal(H, mac, events) && Enabled(Run(H, mac, events), ev)
    ensures Legal(H, mac, events + [ev]) && Run(H, mac, events + [ev]) == Step(H, mac, Run(H, mac, events), ev)
  {
    assert (events + [ev])[..|events|] == events;
    hide Step, Enabled;
  }

  /** The block that the second statement of an append inserts. */
  function BlockRead(mac: MacFn, rows: Rows, read: Event): Block
    requires read.CreateRead? && read.latest in rows && rows[read.latest].block.index <= MAX_STORED_INDEX
  {
    NextBlock(mac, rows[read.latest], read.timestamp, read.userId, read.eventType, read.fields)
  }

  /** Two appends both read before either inserts. */
  function Race(st: State, read1: Event, read2: Event, stored1: Json, stored2: Json): seq<Event> {
    [read1, read2, Commit(|st.inflight|, stored1, false), Commit(|st.inflight|, stored2, false)]
  }

  predicate Reads(mac: MacFn, rows: Rows, read: Event, stored: Json) {
    read.CreateRead? && WellFormed(Obj(read.fields)) && Kept(stored, BlockPayload(mac, read.userId, read.fields))
  }

  /**
   * Whichever of two racing appends inserts first, the other one is rejected: the table ends as if only
   * the first had been made.
   */
  lemma SecondIsRejected(
    H: HashFn, mac: MacFn, st: State, latest: int, read1: Event, read2: Event, stored1: Json, stored2: Json)
    requires latest in st.rows && st.rows[latest].block.index == latest < MAX_STORED_INDEX
    requires read1.CreateRead? && read2.CreateRead? && read1.latest == read2.latest == latest
    requires Insertable(st.rows, RowOf(H, BlockRead(mac, st.rows, read1), stored1))
    ensures
      var race := Race(st, read1, read2, stored1, stored2);
      Step(H, mac, Step(H, mac, Step(H, mac, Step(H, mac, st, race[0]), race[1]), race[2]), race[3]) ==
        st.(rows := st.rows[latest + 1 := RowOf(H, BlockRead(mac, st.rows, read1), stored1)])
  {
    hide CalculateBlockHash, BlockPayload;
    var race := Race(st, read1, read2, stored1, stored2);
    var b1, b2 := BlockRead(mac, st.rows, read1), BlockRead(mac, st.rows, read2);
    var st1 := Step(H, mac, Step(H, mac, st, race[0]), race[1]);
    assert st1 == st.(inflight := st.inflight + [b1, b2]);
    var st2 := Step(H, mac, st1, race[2]);
    assert st1.inflight[..|st.inflight|] + st1.inflight[|st.inflight| + 1..] == st.inflight + [b2];
    assert st2.inflight[..|st.inflight|] + st2.inflight[|st.inflight| + 1..] == st.inflight;
  }

  /**
   * After any run with a genesis row and an index left, two appends can race: both read the same latest
   * row, and when the first insert succeeds, the second is rejected.
   */
  lemma SecondReaderLoses(
    H: HashFn, mac: MacFn, events: seq<Event>, read1: Event, read2: Event, stored1: Json, stored2: Json)
    requires Legal(H, mac, events) && 0 < |Run(H, mac, events).rows| <= MAX_STORED_INDEX
    requires Reads(mac, Run(H, mac, events).rows, read1, stored1) && IsLatest(Run(H, mac, events).rows, read1.latest)
    requires Reads(mac, Run(H, mac, events).rows, read2, stored2) && IsLatest(Run(H, mac, events).rows, read2.latest)
    ensures Legal(H, mac, events + Race(Run(H, mac, events), read1, read2, stored1, stored2))
    ensures
      var st := Run(H, mac, events);
      && read1.latest == |st.rows| - 1 == st.rows[|st.rows| - 1].block.index
      && var row := RowOf(H, BlockRead(mac, st.rows, read1), stored1);
         Insertable(st.rows, row) ==>
           Run(H, mac, events + Race(st, read1, read2, stored1, stored2)) == st.(rows := st.rows[|st.rows| := row])
  {
    hide Run, Legal, Step, Kept, WellFormed, BlockPayload, CalculateBlockHash, Chained, Race, Same;
    var st := Run(H, mac, events);
    RunOk(H, mac, events);
    LatestIsLast(H, st.rows, read1.latest);
    LatestIsLast(H, st.rows, read2.latest);
    RaceIsLegal(H, mac, events, read1, read2, stored1, stored2);
    if Insertable(st.rows, RowOf(H, BlockRead(mac, st.rows, read1), stored1)) {
      SecondIsRejected(H, mac, st, |st.rows| - 1, read1, read2, stored1, stored2);
    }
  }

  lemma RaceIsLegal(
    H: HashFn, mac: MacFn, events: seq<Event>, read1: Event, read2: Event, stored1: Json, stored2: Json)
    requires Legal(H, mac, events) && Ok(H, Run(H, mac, events))
    requires Reads(mac, Run(H, mac, events).rows, read1, stored1) && IsLatest(Run(H, mac, events).rows, read1.latest)
    requires Reads(mac, Run(H, mac, events).rows, read2, stored2) && IsLatest(Run(H, mac, events).rows, read2.latest)
    requires Run(H, mac, events).rows[read1.latest].block.index < MAX_STORED_INDEX
    ensures
      var st := Run(H, mac, events);
      var race := Race(st, read1, read2, stored1, stored2);
      && Legal(H, mac, events + race)
      && Run(H, mac, events + race) ==
         Step(H, mac, Step(H, mac, Step(H, mac, Step(H, mac, st, race[0]), race[1]), race[2]), race[3])
  {
    hide Run, Legal, Insert, WellFormed, BlockPayload, Kept, Ok, Insertable, CalculateBlockHash;
    var st := Run(H, mac, events);
    var n, race := |st.inflight|, Race(st, read1, read2, stored1, stored2);
    var b1, b2 := BlockRead(mac, st.rows, read1), BlockRead(mac, st.rows, read2);
    assert read1.latest == read2.latest;
    RunMore(H, mac, events, race[0]);
    RunMore(H, mac, events + [race[0]], race[1]);
    var st1 := Run(H, mac, events + [race[0]] + [race[1]]);
    assert st1.inflight == st.inflight + [b1, b2];
    RunMore(H, mac, events + [race[0]] + [race[1]], race[2]);
    var st2 := Run(H, mac, events + [race[0]] + [race[1]] + [race[2]]);
    assert st2.inflight == st.inflight + [b2];
    RunMore(H, mac, events + [race[0]] + [race[1]] + [race[2]], race[3]);
    assert events + [race[0]] + [race[1]] + [race[2]] + [race[3]] == events + race;
  }

  lemma LatestIsLast(H: HashFn, rows: Rows, latest: int)
    requires Chained(H, rows) && rows != map[] && IsLatest(rows, latest)
    ensures latest == |rows| - 1 == rows[latest].block.index
  {
    ChainedInOrder(H, rows);
    assert RowOk(H, rows, latest);
    hide CalculateBlockHash, WellFormed;
    assert |rows| - 1 in rows;
  }

  /** UTF-16. */
  function Encode(text: seq<int>): JsString
    requires forall i | 0 <= i < |text| :: IsCharacter(text[i])
  {
    if text == [] then []
    else
      assert IsCharacter(text[0]);
      if text[0] < 0x1_0000 then [text[0]] + Encode(text[1..])
      else [0xD800 + (text[0] - 0x1_0000) / 0x400, 0xDC00 + (text[0] - 0x1_0000) % 0x400] + Encode(text[1..])
  }

  /** A Unicode scalar value. */
  predicate IsCharacter(c: int) {
    0 <= c < 0xD800 || 0xE000 <= c < 0x11_0000
  }

  lemma {:induction false} CharactersOfText(text: seq<int>)
    requires forall i | 0 <= i < |text| :: IsCharacter(text[i])
    ensures Characters(Encode(text)) == |text|
  {
    if text == [] {
    } else {
      CharactersOfText(text[1..]);
      assert IsCharacter(text[0]);
      var rest := Encode(text[1..]);
      if text[0] < 0x1_0000 {
        assert Encode(text)[1..] == rest;
      } else {
        assert Encode(text)[2..] == rest;
      }
    }
  }

  lemma {:induction false} CharactersBound(s: JsString)
    ensures Characters(s) <= |s|
  {
    if s == [] {
    } else if |s| > 1 && HighSurrogate(s[0]) && LowSurrogate(s[1]) {
      CharactersBound(s[2..]);
    } else {
      CharactersBound(s[1..]);
    }
  }

  lemma GenesisKept(timestamp: JsString)
    ensures
      var b := GenesisBlock(timestamp);
      b.index == 0 && FitsColumns(b) && Kept(b.payload, b.payload)
  {
    var b := GenesisBlock(timestamp);
    hide Characters, Same;
    GenesisOk(map[], timestamp);
    CharactersBound(b.eventType);
    Canonical(b.payload, b.payload);
  }

  /** The shortest run: initialisation writes the genesis row. */
  lemma Initialised(H: HashFn, mac: MacFn, timestamp: JsString) returns (events: seq<Event>)
    ensures Legal(H, mac, events) && Run(H, mac, events).inflight == []
    ensures Run(H, mac, events).rows ==
            map[0 := RowOf(H, GenesisBlock(timestamp), GenesisBlock(timestamp).payload)]
  {
    var b := GenesisBlock(timestamp);
    GenesisKept(timestamp);
    hide CalculateBlockHash, FitsColumns, Kept, Same, WellFormed, GenesisPreviousHash, Js;
    RunMore(H, mac, [], InitCheck(timestamp));
    RunMore(H, mac, [] + [InitCheck(timestamp)], Commit(0, b.payload, false));
    events := [] + [InitCheck(timestamp)] + [Commit(0, b.payload, false)];
  }

  /* The service's own statements */

  class Ledger {
    var rows: Rows
    const H: HashFn
    const mac: MacFn

    constructor (H: HashFn, mac: MacFn)
      ensures rows == map[] && this.H == H && this.mac == mac
    {
      this.H, this.mac, rows := H, mac, map[];
    }

    /** The INSERT statement; `stored` is the payload as the database keeps it. */
    method InsertBlock(b: Block, stored: Json) returns (inserted: bool)
      requires Chained(H, rows) && FlightOk(rows, b) && Kept(stored, b.payload)
      modifies this`rows
      ensures Chained(H, rows) && rows == Insert(H, old(rows), b, stored)
      ensures inserted <==> Insertable(old(rows), RowOf(H, b, stored))
    {
      InsertOk(H, rows, b, stored);
      var row := RowOf(H, b, stored);
      inserted := Insertable(rows, row);
      if inserted {
        rows := rows[b.index := row];
      }
    }

    method InitPrivateBlockchain(timestamp: JsString, stored: Json)
      requires Chained(H, rows) && Kept(stored, GenesisBlock(timestamp).payload)
      modifies this`rows
      ensures Chained(H, rows)
      ensures rows == if 0 in old(rows) then old(rows) else Insert(H, old(rows), GenesisBlock(timestamp), stored)
    {
      if 0 in rows {
        return;
      }
      GenesisOk(rows, timestamp);
      var _ := InsertBlock(GenesisBlock(timestamp), stored);
    }

    /** None where the service throws: there is no genesis block, or the insert is rejected. */
    method CreateBlock(
      latest: int, timestamp: JsString, userId: Option<JsString>, eventType: JsString, fields: seq<Field>, stored: Json)
      returns (r: Option<Row>)
      requires Chained(H, rows) && (rows != map[] ==> IsLatest(rows, latest))
      requires WellFormed(Obj(fields)) && Kept(stored, BlockPayload(mac, userId, fields))
      modifies this`rows
      ensures Chained(H, rows)
      ensures old(rows) == map[] ==> r.None?
      ensures old(rows) != map[] ==>
                && old(rows)[latest].block.index == latest <= MAX_STORED_INDEX
                && var b := NextBlock(mac, old(rows)[latest], timestamp, userId, eventType, fields);
                   r.Some? <==> Insertable(old(rows), RowOf(H, b, stored))
      ensures rows == if r.Some? then old(rows)[latest + 1 := r.value] else old(rows)
      ensures r.Some? ==>
                var b := r.value.block;
                && b.index == latest + 1 && b.timestamp == timestamp && b.userId == userId && b.eventType == eventType
                && b.previousHash == old(rows)[latest].blockHash && b.payload == stored
                && r.value.blockHash == CalculateBlockHash(H, b)
      ensures forall k :: Composed(mac, userId, fields, stored, k)
    {
      forall k ensures Composed(mac, userId, fields, stored, k) {
        KeptProperties(mac, userId, fields, stored, k);
      }
      hide CalculateBlockHash, WellFormed, Same, BlockPayload, Composed, FitsColumns;
      if rows == map[] {
        return None;
      }
      assert RowOk(H, rows, latest);
      PayloadWellFormed(mac, userId, fields);
      var b := NextBlock(mac, rows[latest], timestamp, userId, eventType, fields);
      StoredHash(H, b, stored);
      var inserted := InsertBlock(b, stored);
      return if inserted then Some(RowOf(H, b, stored)) else None;
    }

    /** Reads all rows in order of index and verifies them. */
    method Verify() returns (v: Verdict)
      requires Chained(H, rows)
      ensures forall i: int :: i in rows <==> 0 <= i < |rows|
      ensures v == Valid(|rows|, HashBefore(InOrder(rows), |rows|))
    {
      ChainedInOrder(H, rows);
      v := VerifyBlockchain(H, InOrder(rows));
    }
  }
}
