/**
 The asynchronous CMAC machine: while the Bluetooth controller does AES, the state lives in
 globals and advances by one encryption result at a time.
 */
module CmacMachine {
  import opened Bytes
  import opened Rfc4493
  import opened CmacSoftware

  datatype State = Idle | CalcSubkeys | W4Subkeys | CalcMi | W4Mi | CalcMlast | W4Mlast

  /** The btstack_crypto_cmac_* globals. */
  datatype Cmac = Cmac(state: State, k: Block, x: Block, subkey: Block, blockCurrent: byte, blockCount: byte)

  /** What a request asks for. */
  datatype Job = Job(key: Block, size: uint16, data: Source)
  {
    predicate Ok() { data.Covers(size) }

    function Text(): (s: seq<byte>)
      requires Ok()
      ensures |s| == size
    {
      data.Text(size)
    }
  }

  datatype Ready = Ready(cmac: Cmac, block: Block)

  /** The number of blocks, in the eight bits the global has for it. */
  function BlockCount(size: uint16): (n: byte)
    ensures n >= 1 && 16 * (n as int - 1) <= size
  {
    var n := (size + 15) / 16 % 256;
    if n == 0 then 1 else n
  }

  /** The number of blocks RFC 4493 asks for. */
  function RfcBlockCount(size: uint16): (n: nat)
    ensures n >= 1 && 16 * (n - 1) == LastStart(size)
  {
    if size == 0 then 1 else (size + 15) / 16
  }

  function Start(job: Job): Cmac {
    Cmac(CalcSubkeys, job.key, Zeros(16), Zeros(16), 0, BlockCount(job.size))
  }

  predicate Calculating(c: Cmac) {
    c.state in {CalcSubkeys, CalcMi, CalcMlast}
  }

  predicate Waiting(c: Cmac) {
    c.state in {W4Subkeys, W4Mi, W4Mlast}
  }

  /** cmac_handle_aes_engine_ready: the block handed to AES next. */
  function EngineReady(c: Cmac, job: Job): Ready
    requires Calculating(c) && job.Ok()
    requires c.state == CalcMi ==> 16 * (c.blockCurrent + 1) <= job.size
  {
    if c.state == CalcSubkeys then Ready(c.(state := W4Subkeys), Zeros(16))
    else if c.state == CalcMi then
      Ready(c.(state := W4Mi, blockCurrent := (c.blockCurrent + 1) % 256),
            XorBlock(c.x, job.Text()[16 * c.blockCurrent..16 * (c.blockCurrent + 1)]))
    else
      var k1 := Double(c.subkey);
      Ready(c.(state := W4Mlast, blockCurrent := (c.blockCurrent + 1) % 256),
            XorBlock(c.x, LastBlock(k1, Double(k1), job.Text())))
  }

  function NextState(c: Cmac): State {
    if c.blockCurrent < c.blockCount - 1 then CalcMi else CalcMlast
  }

  /** cmac_handle_encryption_result; the hash, once there is one, is the result itself. */
  function Result(c: Cmac, data: Block): Cmac
    requires Waiting(c)
  {
    if c.state == W4Subkeys then c.(subkey := data, state := NextState(c))
    else if c.state == W4Mi then c.(x := data, state := NextState(c))
    else c.(state := Idle)
  }

  /** The hash the machine ends with: RFC 4493 over as many blocks as the eight-bit count allows. */
  function AsyncHash(E: Cipher, job: Job): Block
    requires job.Ok()
  {
    E(job.key, XorBlock(ChainBlocks(E, job.key, job.Text(), BlockCount(job.size) - 1), MLast(E, job.key, job.Text())))
  }

  /** The machine is working on job; block is the AES input it is waiting for, if it is waiting. */
  predicate Working(E: Cipher, c: Cmac, job: Job, block: Block) {
    && job.Ok() && c.k == job.key && c.blockCount == BlockCount(job.size)
    && var msg, n := job.Text(), BlockCount(job.size);
    && (c.state in {CalcMi, W4Mi, CalcMlast, W4Mlast} ==> c.subkey == E(job.key, Zeros(16)))
    && match c.state
       case Idle => false
       case CalcSubkeys => c.blockCurrent == 0 && c.x == Zeros(16)
       case W4Subkeys => c.blockCurrent == 0 && c.x == Zeros(16) && block == Zeros(16)
       case CalcMi => c.blockCurrent < n - 1 && c.x == ChainBlocks(E, job.key, msg, c.blockCurrent)
       case W4Mi =>
         && 1 <= c.blockCurrent <= n - 1
         && E(job.key, block) == ChainBlocks(E, job.key, msg, c.blockCurrent)
       case CalcMlast => c.blockCurrent == n - 1 && c.x == ChainBlocks(E, job.key, msg, n - 1)
       case W4Mlast => c.blockCurrent == n && block == XorBlock(ChainBlocks(E, job.key, msg, n - 1), MLast(E, job.key, msg))
  }

  /** The encryption results the machine still needs. */
  function ResultsLeft(c: Cmac): int {
    match c.state
    case Idle => 0
    case CalcSubkeys => c.blockCount + 1
    case W4Subkeys => c.blockCount + 1
    case CalcMi => c.blockCount - c.blockCurrent
    case W4Mi => c.blockCount - c.blockCurrent + 1
    case CalcMlast => 1
    case W4Mlast => 1
  }

  lemma StartWorks(E: Cipher, job: Job, block: Block)
    requires job.Ok()
    ensures Working(E, Start(job), job, block) && ResultsLeft(Start(job)) == BlockCount(job.size) + 1
  {
  }

  /** A block counted before the last one lies inside the message. */
  lemma BlockInside(size: uint16, k: nat)
    requires k < BlockCount(size) - 1
    ensures 16 * (k + 1) <= size && k + 1 < 256
  {
  }

  lemma BlockReady(E: Cipher, c: Cmac, job: Job, block: Block)
    requires Working(E, c, job, block) && c.state == CalcMi
    ensures 16 * (c.blockCurrent + 1) <= job.size
    ensures var r := EngineReady(c, job);
            && r.cmac == c.(state := W4Mi, blockCurrent := c.blockCurrent + 1)
            && c.blockCurrent + 1 <= BlockCount(job.size) - 1
            && E(job.key, r.block) == ChainBlocks(E, job.key, job.Text(), c.blockCurrent + 1)
  {
    hide XorBlock, ChainBlocks, BlockCount;
    BlockInside(job.size, c.blockCurrent);
    ChainNext(E, job.key, job.Text(), c.blockCurrent);
  }

  lemma LastReady(E: Cipher, c: Cmac, job: Job, block: Block)
    requires Working(E, c, job, block) && c.state == CalcMlast
    ensures var r, n := EngineReady(c, job), BlockCount(job.size);
            && r.cmac == c.(state := W4Mlast, blockCurrent := n)
            && r.block == XorBlock(ChainBlocks(E, job.key, job.Text(), n - 1), MLast(E, job.key, job.Text()))
  {
    hide Double, LastBlock, XorBlock, ChainBlocks, BlockCount;
    Wraps(BlockCount(job.size));
  }

  lemma Wraps(n: byte)
    requires n >= 1
    ensures (n as int - 1 + 1) % 256 == n
  {
  }

  lemma SubkeysReady(c: Cmac, job: Job)
    requires job.Ok() && c.state == CalcSubkeys
    ensures EngineReady(c, job) == Ready(c.(state := W4Subkeys), Zeros(16))
  {
  }

  lemma EngineReadyWorks(E: Cipher, c: Cmac, job: Job, block: Block)
    requires Working(E, c, job, block) && Calculating(c)
    ensures c.state == CalcMi ==> 16 * (c.blockCurrent + 1) <= job.size
    ensures var r := EngineReady(c, job);
            Waiting(r.cmac) && Working(E, r.cmac, job, r.block) && ResultsLeft(r.cmac) == ResultsLeft(c) > 0
  {
    hide XorBlock, ChainBlocks, BlockCount, MLast, EngineReady;
    if c.state == CalcMi {
      BlockReady(E, c, job, block);
    } else if c.state == CalcMlast {
      LastReady(E, c, job, block);
    } else {
      SubkeysReady(c, job);
    }
  }

  lemma ChainNext(E: Cipher, key: Block, msg: seq<byte>, k: nat)
    requires 16 * (k + 1) <= |msg|
    ensures ChainBlocks(E, key, msg, k + 1) == E(key, XorBlock(ChainBlocks(E, key, msg, k), msg[16 * k..16 * (k + 1)]))
  {
  }

  /** An honest result either completes the hash or lets the machine go on. */
  lemma ResultWorks(E: Cipher, c: Cmac, job: Job, block: Block, other: Block)
    requires Working(E, c, job, block) && Waiting(c)
    ensures var r := Result(c, E(job.key, block));
            && ResultsLeft(r) == ResultsLeft(c) - 1
            && (if c.state == W4Mlast then r.state == Idle && E(job.key, block) == AsyncHash(E, job)
                else Calculating(r) && Working(E, r, job, other))
  {
    hide Double, LastBlock;
  }

  /** A run of the machine on its own: the hash, and how many encryption results it took. */
  datatype Run = Run(hash: Block, results: nat)

  function RunFrom(E: Cipher, c: Cmac, job: Job): Run
    requires Calculating(c) && Working(E, c, job, Zeros(16))
    decreases ResultsLeft(c)
  {
    EngineReadyWorks(E, c, job, Zeros(16));
    var r := EngineReady(c, job);
    ResultWorks(E, r.cmac, job, r.block, Zeros(16));
    var y := E(job.key, r.block);
    if r.cmac.state == W4Mlast then Run(y, 1)
    else var rest := RunFrom(E, Result(r.cmac, y), job); Run(rest.hash, rest.results + 1)
  }

  function RunJob(E: Cipher, job: Job): Run
    requires job.Ok()
  {
    StartWorks(E, job, Zeros(16));
    RunFrom(E, Start(job), job)
  }

  lemma {:induction false} RunFromHash(E: Cipher, c: Cmac, job: Job)
    requires Calculating(c) && Working(E, c, job, Zeros(16))
    ensures RunFrom(E, c, job) == Run(AsyncHash(E, job), ResultsLeft(c))
    decreases ResultsLeft(c)
  {
    hide Double, LastBlock;
    EngineReadyWorks(E, c, job, Zeros(16));
    var r := EngineReady(c, job);
    ResultWorks(E, r.cmac, job, r.block, Zeros(16));
    if r.cmac.state != W4Mlast {
      RunFromHash(E, Result(r.cmac, E(job.key, r.block)), job);
    }
  }

  /** For every size: the hash in closed form, after one result for the subkeys and one per block counted. */
  lemma RunJobHash(E: Cipher, job: Job)
    requires job.Ok()
    ensures RunJob(E, job) == Run(AsyncHash(E, job), BlockCount(job.size) + 1)
  {
    hide RunFrom, AsyncHash;
    StartWorks(E, job, Zeros(16));
    RunFromHash(E, Start(job), job);
  }

  lemma AsyncHashIsCmac(E: Cipher, job: Job)
    requires job.Ok() && job.size <= 4080
    ensures AsyncHash(E, job) == Rfc4493.Cmac(E, job.key, job.Text())
  {
    hide Chain, ChainBlocks, MLast;
    ChainIsChainBlocks(E, job.key, job.Text());
  }

  /**
   The asynchronous machine refines the straight-line CMAC for every size up to 4080, taking one
   encryption result for the subkeys and one per block.
   */
  lemma AsyncRefinesRfc(E: Cipher, job: Job)
    requires job.Ok() && job.size <= 4080
    ensures RunJob(E, job) == Run(Rfc4493.Cmac(E, job.key, job.Text()), RfcBlockCount(job.size) + 1)
  {
    hide RunJob, AsyncHash, Rfc4493.Cmac;
    RunJobHash(E, job);
    AsyncHashIsCmac(E, job);
  }

  // ----- beyond 4080 bytes -----

  function Identity(): Cipher {
    (key: Block, b: Block) => b
  }

  /** All zeros except one byte. */
  function OneByte(size: nat, at: nat): (s: seq<byte>)
    requires at < size
    ensures |s| == size && forall i :: 0 <= i < size ==> s[i] == if i == at then 1 else 0
  {
    seq(size, i => if i == at then 1 else 0)
  }

  /** Under the identity cipher a chain over zero blocks stays zero. */
  lemma {:induction false} ZeroChain(key: Block, msg: seq<byte>, k: nat)
    requires 16 * k <= |msg| && forall i :: 0 <= i < 16 * k ==> msg[i] == 0
    ensures ChainBlocks(Identity(), key, msg, k) == Zeros(16)
  {
    if k > 0 {
      ZeroChain(key, msg, k - 1);
      assert msg[16 * (k - 1)..16 * k] == Zeros(16);
      XorBytesZeros(Zeros(16));
    }
  }

  /** Under the identity cipher a chain remembers the one non-zero byte it has passed. */
  lemma {:induction false} OneByteChain(key: Block, msg: seq<byte>, at: nat, k: nat)
    requires at < |msg| && msg == OneByte(|msg|, at) && at % 16 == 0 && at < 16 * k <= |msg|
    ensures ChainBlocks(Identity(), key, msg, k)[0] == 1
  {
    hide ChainBlocks, Xor, OneByte;
    var block := msg[16 * (k - 1)..16 * k];
    var before := ChainBlocks(Identity(), key, msg, k - 1);
    assert block[0] == msg[16 * (k - 1)];
    ChainNext(Identity(), key, msg, k - 1);
    if at < 16 * (k - 1) {
      OneByteChain(key, msg, at, k - 1);
      XorByteLaws(before[0], 0);
    } else {
      ZeroChain(key, msg, k - 1);
      XorByteLaws(1, 0);
    }
    assert ChainBlocks(Identity(), key, msg, k) == XorBlock(before, block);
  }

  /** Above 4080 bytes some message is hashed wrongly: the block right after the wrapped count is never read. */
  lemma LongMessageSkipsBlocks(key: Block, size: uint16)
    requires size > 4080
    ensures var at := 16 * (BlockCount(size) - 1);
            && at < size
            && var job := Job(key, size, Message(OneByte(size, at)));
            && job.Ok()
            && AsyncHash(Identity(), job) != Rfc4493.Cmac(Identity(), key, job.Text())
  {
    hide Double, LastBlock, Chain, Rfc4493.MLast, ChainBlocks, Xor;
    var n: nat, n': nat := RfcBlockCount(size), BlockCount(size);
    assert n' < n by { assert n > 255; }
    var at := 16 * (n' - 1);
    var msg := OneByte(size, at);
    var job := Job(key, size, Message(msg));
    assert job.Text() == msg;
    ZeroChain(key, msg, n' - 1);
    OneByteChain(key, msg, at, n - 1);
    ChainIsChainBlocks(Identity(), key, msg);
    var last := MLast(Identity(), key, msg);
    DifferInFirst(ChainBlocks(Identity(), key, msg, n - 1), last);
  }

  /** Mixing the same block into two chaining values that differ in their first byte. */
  lemma DifferInFirst(chain: Block, last: Block)
    requires chain[0] == 1
    ensures XorBlock(Zeros(16), last) != XorBlock(chain, last)
  {
    hide Xor;
    XorByteLaws(0, last[0]);
    XorByteLaws(1, last[0]);
    assert XorBlock(Zeros(16), last)[0] == Xor(0, last[0]) && XorBlock(chain, last)[0] == Xor(1, last[0]);
  }

  /** Exactly the sizes up to 4080 are hashed as RFC 4493 asks, whatever the cipher, key and data. */
  lemma AsyncExactness(size: uint16)
    ensures (forall E: Cipher, job: Job | job.Ok() && job.size == size ::
               RunJob(E, job).hash == Rfc4493.Cmac(E, job.key, job.Text()))
            <==> size <= 4080
  {
    hide Chain, ChainBlocks, MLast, RunJob;
    if size <= 4080 {
      forall E: Cipher, job: Job | job.Ok() && job.size == size
        ensures RunJob(E, job).hash == Rfc4493.Cmac(E, job.key, job.Text())
      {
        AsyncRefinesRfc(E, job);
      }
    } else {
      LongMessageSkipsBlocks(Zeros(16), size);
      var job := Job(Zeros(16), size, Message(OneByte(size, 16 * (BlockCount(size) - 1))));
      RunJobHash(Identity(), job);
    }
  }
}
