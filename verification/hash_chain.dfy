/**
 * The private hash chain of blockchainService.js: block hashes and the verifier. SHA-256 over the
 * printed block is a function `H` of the text.
 */
module HashChain {
  import opened Prelude
  import opened JsonGrammar
  import opened StableJson

  type HashFn = JsString -> JsString

  const HASH_LEN := 64

  /** PostgreSQL's INTEGER, and the one number above it that the code can compute before the insert fails. */
  type BlockIndex = i: int | -0x8000_0000 <= i <= 0x8000_0000

  const MAX_STORED_INDEX := 0x7FFF_FFFF

  datatype Block = Block(
    index: BlockIndex, timestamp: JsString, userId: Option<JsString>, eventType: JsString,
    payload: Json, previousHash: JsString)

  datatype Row = Row(block: Block, blockHash: JsString)

  function GenesisPreviousHash(): JsString {
    Js("0")
  }

  function UserJson(userId: Option<JsString>): Json {
    if userId.Some? then Str(userId.value) else Null
  }

  function HashedObject(b: Block): (o: Json)
    ensures o.Obj?
  {
    Obj([
      Field(Js("index"), Num(b.index)),
      Field(Js("timestamp"), Str(b.timestamp)),
      Field(Js("userId"), UserJson(b.userId)),
      Field(Js("eventType"), Str(b.eventType)),
      Field(Js("payload"), b.payload),
      Field(Js("previousHash"), Str(b.previousHash))])
  }

  function HashText(b: Block): JsString {
    StableStringify(HashedObject(b))
  }

  function CalculateBlockHash(H: HashFn, b: Block): JsString {
    H(HashText(b))
  }

  /** Equal in every hashed field, the payload up to key order. */
  predicate SameBlock(a: Block, b: Block) {
    && a.index == b.index && a.timestamp == b.timestamp && a.userId == b.userId
    && a.eventType == b.eventType && a.previousHash == b.previousHash && Same(a.payload, b.payload)
  }

  /** The six properties that are hashed, by name. */
  lemma HashedProperties(b: Block)
    ensures
      var f := HashedObject(b).fields;
      && |f| == 6 && UniqueKeys(f)
      && Spells(f[0].key, "index") && f[0].value == Num(b.index)
      && Spells(f[1].key, "timestamp") && f[1].value == Str(b.timestamp)
      && Spells(f[2].key, "userId") && f[2].value == (if b.userId.Some? then Str(b.userId.value) else Null)
      && Spells(f[3].key, "eventType") && f[3].value == Str(b.eventType)
      && Spells(f[4].key, "payload") && f[4].value == b.payload
      && Spells(f[5].key, "previousHash") && f[5].value == Str(b.previousHash)
  {
    JsSpells("index");
    JsSpells("timestamp");
    JsSpells("userId");
    JsSpells("eventType");
    JsSpells("payload");
    JsSpells("previousHash");
    hide Js;
    SpelledApart(Js("timestamp"), "timestamp", Js("eventType"), "eventType");
    hide StartsWith;
  }

  lemma JsSpells(word: string)
    requires forall i | 0 <= i < |word| :: word[i] as int < 0x1_0000
    ensures Spells(Js(word), word)
  {
  }

  lemma SpelledApart(s: JsString, word: string, t: JsString, other: string)
    requires Spells(s, word) && Spells(t, other) && word != "" && other != "" && word[0] != other[0]
    ensures s != t
  {
  }

  lemma HashedObjectShape(b: Block)
    requires WellFormed(b.payload)
    ensures WellFormed(HashedObject(b))
  {
    assert Js("timestamp")[0] != Js("eventType")[0];
  }

  /** Objects with the same keys in the same places are compared place by place. */
  lemma SameByPlace(f: seq<Field>, g: seq<Field>)
    requires UniqueKeys(f) && UniqueKeys(g) && |f| == |g| && forall i | 0 <= i < |f| :: f[i].key == g[i].key
    ensures Same(Obj(f), Obj(g)) <==> forall i | 0 <= i < |f| :: Same(f[i].value, g[i].value)
  {
    forall i | 0 <= i < |f| ensures HasKey(g, f[i].key) && HasKey(f, g[i].key) && Get(g, f[i].key) == g[i].value {
      GetUnique(g, i);
      GetUnique(f, i);
    }
  }

  function HashedValues(b: Block): seq<Json> {
    [Num(b.index), Str(b.timestamp), UserJson(b.userId), Str(b.eventType), b.payload, Str(b.previousHash)]
  }

  lemma HashedFields(a: Block, b: Block)
    ensures
      var f, g := HashedObject(a).fields, HashedObject(b).fields;
      |f| == |g| == 6 && forall i | 0 <= i < 6 :: f[i].key == g[i].key && f[i].value == HashedValues(a)[i]
  {
  }

  lemma SameValues(a: Block, b: Block)
    ensures SameBlock(a, b) <==> forall i | 0 <= i < 6 :: Same(HashedValues(a)[i], HashedValues(b)[i])
  {
    hide Same;
    var v, w := HashedValues(a), HashedValues(b);
    SameAtoms(v[0], w[0]);
    SameAtoms(v[1], w[1]);
    SameAtoms(v[2], w[2]);
    SameAtoms(v[3], w[3]);
    SameAtoms(v[5], w[5]);
    if forall i | 0 <= i < 6 :: Same(v[i], w[i]) {
      assert Same(v[0], w[0]) && Same(v[1], w[1]) && Same(v[2], w[2]);
      assert Same(v[3], w[3]) && Same(v[4], w[4]) && Same(v[5], w[5]);
    }
  }

  lemma SameObjects(a: Block, b: Block)
    requires WellFormed(a.payload) && WellFormed(b.payload)
    ensures Same(HashedObject(a), HashedObject(b)) <==> SameBlock(a, b)
  {
    HashedObjectShape(a);
    HashedObjectShape(b);
    HashedFields(a, b);
    HashedFields(b, a);
    SameValues(a, b);
    hide HashedObject, HashedValues, Same, SameBlock;
    SameByPlace(HashedObject(a).fields, HashedObject(b).fields);
  }

  lemma SameAtoms(a: Json, b: Json)
    ensures !a.Arr? && !a.Obj? ==> (Same(a, b) <==> a == b)
  {
  }

  /** The hashed text determines every hashed field, and nothing else. */
  lemma TextDeterminesBlock(a: Block, b: Block)
    requires WellFormed(a.payload) && WellFormed(b.payload)
    ensures HashText(a) == HashText(b) <==> SameBlock(a, b)
  {
    HashedObjectShape(a);
    HashedObjectShape(b);
    Canonical(HashedObject(a), HashedObject(b));
    SameObjects(a, b);
  }

  /* Verification */

  datatype Verdict = Valid(blockCount: nat, lastHash: JsString) | Broken(blockCount: nat, brokenAt: BlockIndex)

  /** The hash that the row after the first i rows has to carry. */
  function HashBefore(rows: seq<Row>, i: nat): JsString
    requires i <= |rows|
  {
    if i == 0 then GenesisPreviousHash() else rows[i - 1].blockHash
  }

  predicate Linked(H: HashFn, rows: seq<Row>, i: nat)
    requires i < |rows|
  {
    rows[i].block.previousHash == HashBefore(rows, i) && rows[i].blockHash == CalculateBlockHash(H, rows[i].block)
  }

  predicate AllLinked(H: HashFn, rows: seq<Row>) {
    forall i: nat | i < |rows| :: Linked(H, rows, i)
  }

  /** Rows come in ascending order of index. The row reported broken is the first that does not fit. */
  method VerifyBlockchain(H: HashFn, rows: seq<Row>) returns (v: Verdict)
    ensures v.blockCount == |rows|
    ensures v.Valid? <==> AllLinked(H, rows)
    ensures v.Valid? ==> v.lastHash == HashBefore(rows, |rows|)
    ensures v.Broken? ==> exists i: nat | i < |rows| ::
              !Linked(H, rows, i) && v.brokenAt == rows[i].block.index && AllLinked(H, rows[..i])
  {
    var previousHash := GenesisPreviousHash();
    for i := 0 to |rows|
      invariant previousHash == HashBefore(rows, i)
      invariant forall j: nat | j < i :: Linked(H, rows, j)
    {
      var row := rows[i];
      var expectedHash := CalculateBlockHash(H, row.block);
      if row.block.previousHash != previousHash || row.blockHash != expectedHash {
        forall j: nat | j < |rows[..i]| ensures Linked(H, rows[..i], j) {
          assert Linked(H, rows, j);
        }
        assert !Linked(H, rows, i);
        return Broken(|rows|, row.block.index);
      }
      previousHash := row.blockHash;
    }
    return Valid(|rows|, previousHash);
  }

  predicate Collide(H: HashFn, a: Block, b: Block) {
    HashText(a) != HashText(b) && CalculateBlockHash(H, a) == CalculateBlockHash(H, b)
  }

  predicate SameRows(a: seq<Row>, b: seq<Row>) {
    |a| == |b| && forall i | 0 <= i < |a| :: SameBlock(a[i].block, b[i].block) && a[i].blockHash == b[i].blockHash
  }

  predicate HasCollision(H: HashFn, a: seq<Row>, b: seq<Row>) {
    exists i, j | 0 <= i < |a| && 0 <= j < |b| :: Collide(H, a[i].block, b[j].block)
  }

  lemma PrefixLinked(H: HashFn, rows: seq<Row>)
    requires AllLinked(H, rows) && rows != []
    ensures AllLinked(H, rows[..|rows| - 1])
  {
    var p := rows[..|rows| - 1];
    forall i: nat | i < |p| ensures Linked(H, p, i) {
      assert Linked(H, rows, i);
    }
  }

  /**
   * Two chains that verify and end in the same hash are the same chain, row by row, unless they
   * contain two blocks whose different texts have one hash.
   */
  lemma {:induction false} LastHashDeterminesChain(H: HashFn, a: seq<Row>, b: seq<Row>)
    requires forall t :: |H(t)| == HASH_LEN
    requires forall i | 0 <= i < |a| :: WellFormed(a[i].block.payload)
    requires forall i | 0 <= i < |b| :: WellFormed(b[i].block.payload)
    requires AllLinked(H, a) && AllLinked(H, b) && HashBefore(a, |a|) == HashBefore(b, |b|)
    ensures SameRows(a, b) || HasCollision(H, a, b)
    decreases |a|
  {
    hide HashText, SameBlock, WellFormed, Js, StableStringify;
    if a != [] && b != [] {
      var m, n := |a| - 1, |b| - 1;
      assert Linked(H, a, m) && Linked(H, b, n);
      TextDeterminesBlock(a[m].block, b[n].block);
      if HashText(a[m].block) == HashText(b[n].block) {
        PrefixLinked(H, a);
        PrefixLinked(H, b);
        SamePrevious(a[m].block, b[n].block);
        LastHashDeterminesChain(H, a[..m], b[..n]);
        ExtendSame(H, a, b);
      } else {
        assert Collide(H, a[m].block, b[n].block);
      }
    } else if a != [] {
      HashIsNotGenesis(H, a);
    } else if b != [] {
      HashIsNotGenesis(H, b);
    }
  }

  lemma SamePrevious(a: Block, b: Block)
    requires SameBlock(a, b)
    ensures a.previousHash == b.previousHash
  {
  }

  lemma HashIsNotGenesis(H: HashFn, a: seq<Row>)
    requires (forall t :: |H(t)| == HASH_LEN) && a != [] && AllLinked(H, a)
    ensures HashBefore(a, |a|) != GenesisPreviousHash()
  {
    assert Linked(H, a, |a| - 1);
    assert |GenesisPreviousHash()| == 1;
  }

  lemma ExtendSame(H: HashFn, a: seq<Row>, b: seq<Row>)
    requires a != [] && b != []
    requires SameBlock(a[|a| - 1].block, b[|b| - 1].block) && a[|a| - 1].blockHash == b[|b| - 1].blockHash
    ensures SameRows(a[..|a| - 1], b[..|b| - 1]) ==> SameRows(a, b)
    ensures HasCollision(H, a[..|a| - 1], b[..|b| - 1]) ==> HasCollision(H, a, b)
  {
    hide SameBlock, Collide;
    var p, q := a[..|a| - 1], b[..|b| - 1];
    if SameRows(p, q) {
      forall i | 0 <= i < |a| ensures SameBlock(a[i].block, b[i].block) && a[i].blockHash == b[i].blockHash {
        assert i < |p| ==> p[i] == a[i] && q[i] == b[i];
      }
    }
    if i, j :| 0 <= i < |p| && 0 <= j < |q| && Collide(H, p[i].block, q[j].block) {
      assert Collide(H, a[i].block, b[j].block);
    }
  }
}
