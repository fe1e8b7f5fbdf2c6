/** Where the rows of the chain come from: every one from a call of the run, with that call's arguments. */
module ChainProvenance {
  import opened Prelude
  import opened JsonGrammar
  import opened StableJson
  import opened HashChain
  import opened ChainAppends

  /** The genesis row, field by field. */
  predicate IsGenesis(b: Block, timestamp: JsString) {
    && b.index == 0 && b.timestamp == timestamp && b.userId == None
    && Spells(b.eventType, "GENESIS") && Spells(b.previousHash, "0")
    && b.payload.Obj? && IsGenesisPayload(b.payload.fields)
  }

  predicate IsGenesisPayload(f: seq<Field>) {
    && |f| == 2
    && Spells(f[0].key, "network") && f[0].value.Str? && Spells(f[0].value.s, "blockchain-vpn")
    && Spells(f[1].key, "purpose") && f[1].value.Str? && Spells(f[1].value.s, "private partner identity chain")
  }

  lemma GenesisFields(timestamp: JsString)
    ensures IsGenesis(GenesisBlock(timestamp), timestamp)
  {
    JsSpells("GENESIS");
    JsSpells("0");
    JsSpells("network");
    JsSpells("blockchain-vpn");
    JsSpells("purpose");
    JsSpells("private partner identity chain");
    hide Js, Spells;
  }

  /** The block is the genesis block of an initialisation at m. */
  predicate FromInit(events: seq<Event>, m: nat, b: Block) {
    m < |events| && events[m].InitCheck? && IsGenesis(b, events[m].timestamp)
  }

  /** The block is the one that the append at m made: next to the row that it read, with its arguments. */
  predicate FromCreate(H: HashFn, mac: MacFn, events: seq<Event>, m: nat, b: Block) {
    && m < |events| && events[m].CreateRead?
    && var read, rows := events[m], Run(H, mac, events[..m]).rows;
       && read.latest in rows && b.index == read.latest + 1 && b.previousHash == rows[read.latest].blockHash
       && b.timestamp == read.timestamp && b.userId == read.userId && b.eventType == read.eventType
       && b.payload == BlockPayload(mac, read.userId, read.fields)
  }

  ghost predicate Made(H: HashFn, mac: MacFn, events: seq<Event>, b: Block) {
    || (exists m: nat :: FromInit(events, m, b))
    || (b.index > 0 && exists m: nat :: FromCreate(H, mac, events, m, b))
  }

  /** The row is a made block, its payload as the database keeps it. */
  ghost predicate Stored(H: HashFn, mac: MacFn, events: seq<Event>, row: Row) {
    exists payload :: Made(H, mac, events, row.block.(payload := payload)) && Kept(row.block.payload, payload)
  }

  ghost predicate AllMade(H: HashFn, mac: MacFn, events: seq<Event>, st: State) {
    && (forall k | 0 <= k < |st.inflight| :: Made(H, mac, events, st.inflight[k]))
    && forall i: int | i in st.rows :: Stored(H, mac, events, st.rows[i])
  }

  lemma MadeStays(H: HashFn, mac: MacFn, events: seq<Event>, ev: Event, b: Block)
    requires Made(H, mac, events, b)
    ensures Made(H, mac, events + [ev], b)
  {
    hide IsGenesis, Run, BlockPayload;
    if m: nat :| FromInit(events, m, b) {
      assert FromInit(events + [ev], m, b);
    } else {
      var m: nat :| FromCreate(H, mac, events, m, b);
      assert (events + [ev])[..m] == events[..m];
      assert FromCreate(H, mac, events + [ev], m, b);
    }
  }

  lemma AllMadeStays(H: HashFn, mac: MacFn, events: seq<Event>, ev: Event, st: State)
    requires AllMade(H, mac, events, st)
    ensures AllMade(H, mac, events + [ev], st)
  {
    hide Made, Kept;
    forall k | 0 <= k < |st.inflight| ensures Made(H, mac, events + [ev], st.inflight[k]) {
      MadeStays(H, mac, events, ev, st.inflight[k]);
    }
    forall i: int | i in st.rows ensures Stored(H, mac, events + [ev], st.rows[i]) {
      var b := st.rows[i].block;
      var payload :| Made(H, mac, events, b.(payload := payload)) && Kept(b.payload, payload);
      MadeStays(H, mac, events, ev, b.(payload := payload));
    }
  }

  lemma InitMade(H: HashFn, mac: MacFn, before: seq<Event>, timestamp: JsString)
    ensures Made(H, mac, before + [InitCheck(timestamp)], GenesisBlock(timestamp))
  {
    GenesisFields(timestamp);
    hide IsGenesis, GenesisBlock;
    assert FromInit(before + [InitCheck(timestamp)], |before|, GenesisBlock(timestamp));
  }

  lemma CreateMade(H: HashFn, mac: MacFn, before: seq<Event>, read: Event)
    requires Legal(H, mac, before) && read.CreateRead?
    requires read.latest in Run(H, mac, before).rows
    requires Run(H, mac, before).rows[read.latest].block.index <= MAX_STORED_INDEX
    ensures Made(H, mac, before + [read], BlockRead(mac, Run(H, mac, before).rows, read))
  {
    var rows := Run(H, mac, before).rows;
    RunOk(H, mac, before);
    assert RowOk(H, rows, read.latest);
    hide Run, BlockPayload, CalculateBlockHash, WellFormed;
    assert (before + [read])[..|before|] == before;
    assert FromCreate(H, mac, before + [read], |before|, BlockRead(mac, rows, read));
  }

  lemma AppendMade(H: HashFn, mac: MacFn, events: seq<Event>, st: State, b: Block)
    requires AllMade(H, mac, events, st) && Made(H, mac, events, b)
    ensures AllMade(H, mac, events, st.(inflight := st.inflight + [b]))
  {
    hide Made, Stored;
  }

  lemma CommitMade(H: HashFn, mac: MacFn, events: seq<Event>, st: State, k: nat, stored: Json, lost: bool)
    requires AllMade(H, mac, events, st) && k < |st.inflight| && Kept(stored, st.inflight[k].payload)
    ensures AllMade(H, mac, events, Step(H, mac, st, Commit(k, stored, lost)))
  {
    hide Made, Kept, CalculateBlockHash, Insertable;
    var b, st' := st.inflight[k], Step(H, mac, st, Commit(k, stored, lost));
    assert b.(payload := stored).(payload := b.payload) == b;
    forall i: int | i in st'.rows ensures Stored(H, mac, events, st'.rows[i]) {
      if i !in st.rows || st'.rows[i] != st.rows[i] {
        assert st'.rows[i] == RowOf(H, b, stored);
      }
    }
  }

  lemma {:induction false} RunMade(H: HashFn, mac: MacFn, events: seq<Event>)
    requires Legal(H, mac, events)
    ensures AllMade(H, mac, events, Run(H, mac, events))
  {
    if events == [] {
    } else {
      var before, ev := events[..|events| - 1], events[|events| - 1];
      var st := Run(H, mac, before);
      RunMade(H, mac, before);
      AllMadeStays(H, mac, before, ev, st);
      assert before + [ev] == events;
      hide AllMade, Made, Insert, GenesisBlock, IsLatest, WellFormed, NextBlock;
      match ev {
        case InitCheck(timestamp) =>
          InitMade(H, mac, before, timestamp);
          AppendMade(H, mac, events, st, GenesisBlock(timestamp));
        case CreateRead(latest, _, _, _, _) =>
          if latest in st.rows && st.rows[latest].block.index <= MAX_STORED_INDEX {
            CreateMade(H, mac, before, ev);
            AppendMade(H, mac, events, st, BlockRead(mac, st.rows, ev));
          }
        case Commit(k, stored, lost) => CommitMade(H, mac, events, st, k, stored, lost);
      }
    }
  }

  /**
   * Provenance. In every run, row 0 is the genesis row of an initialisation of that run, and every later
   * row is the block of an append of the run: its timestamp, user id and event type are the call's, its
   * payload is the database's copy of the composed one, and its previous hash is that of the row read.
   */
  lemma RowsComeFromCalls(H: HashFn, mac: MacFn, events: seq<Event>, i: int) returns (m: nat, payload: Json)
    requires Legal(H, mac, events) && i in Run(H, mac, events).rows
    ensures
      var b := Run(H, mac, events).rows[i].block;
      && b.index == i && Kept(b.payload, payload)
      && if i == 0 then FromInit(events, m, b.(payload := payload))
         else FromCreate(H, mac, events, m, b.(payload := payload)) && events[m].latest == i - 1
  {
    RunMade(H, mac, events);
    RunOk(H, mac, events);
    var row := Run(H, mac, events).rows[i];
    assert RowOk(H, Run(H, mac, events).rows, i) && Stored(H, mac, events, row);
    hide IsGenesisPayload, Run, Kept, CalculateBlockHash, BlockPayload, WellFormed;
    payload :| Made(H, mac, events, row.block.(payload := payload)) && Kept(row.block.payload, payload);
    if i == 0 {
      m :| FromInit(events, m, row.block.(payload := payload));
    } else {
      m :| FromCreate(H, mac, events, m, row.block.(payload := payload));
    }
  }

  /** On a table with a genesis row, initialisation does nothing at all. */
  lemma InitialisedOnce(H: HashFn, mac: MacFn, events: seq<Event>, timestamp: JsString)
    requires Legal(H, mac, events) && Run(H, mac, events).rows != map[]
    ensures Step(H, mac, Run(H, mac, events), InitCheck(timestamp)) == Run(H, mac, events)
  {
    ChainSafety(H, mac, events);
  }
}
