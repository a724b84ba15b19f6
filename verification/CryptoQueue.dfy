/**
 The crypto engine as a whole: a FIFO of requests, one controller command at a time, and the
 globals of the CMAC machine. The safety theorem covers every run, that is every sequence of
 submissions, scheduler iterations and controller results.
 */
module CryptoQueue {
  import opened Bytes
  import Rfc4493
  import Ccm = CcmMachine
  import Cmac = CmacMachine

  /** With software AES the controller only supplies random numbers. */
  datatype Mode = Software | Controller

  /** A request; id stands for its address. */
  datatype Request =
    | Random(id: nat, size: uint16, buffer: seq<byte>)  // bytes still wanted, bytes stored
    | Aes128(id: nat, key: Block, plaintext: Block, ciphertext: Block)
    | CmacRequest(id: nat, job: Cmac.Job, hash: Block)
    | CcmRequest(id: nat, ccm: Ccm.Ccm)

  /** A command on its way to the controller, in the controller's byte order. */
  datatype Command = LeRand | LeEncrypt(key: Block, plaintext: Block)

  /**
   operations, waitForHciResult and cmac are the engine's globals. outstanding holds the commands
   sent and not yet answered, completed the requests whose callback has run, in order.
   */
  datatype Engine = Engine(
    operations: seq<Request>, waitForHciResult: bool, cmac: Cmac.Cmac,
    outstanding: seq<Command>, completed: seq<Request>)

  /** The controller counts bytes from the other end. */
  function Flip(b: Block): (r: Block)
    ensures forall i :: 0 <= i < 16 ==> r[i] == b[15 - i]
  {
    Reverse(b)
  }

  /** A request as its submitting function leaves it. */
  predicate Ready(r: Request) {
    match r
    case Random(_, size, buffer) => buffer == []
    case Aes128(_, _, _, _) => true
    case CmacRequest(_, job, _) => job.Ok()
    case CcmRequest(_, c) => Ccm.CallOk(c) && Ccm.Calculating(c)
  }

  // ----- the transitions -----

  /** btstack_crypto_done: pop the head and call back. */
  function Done(e: Engine, r: Request): Engine
    requires e.operations != []
  {
    e.(operations := e.operations[1..], completed := e.completed + [r])
  }

  function Send(e: Engine, r: Request, command: Command): Engine
    requires e.operations != []
  {
    e.(operations := [r] + e.operations[1..], waitForHciResult := true, outstanding := e.outstanding + [command])
  }

  function AesStart(key: Block, plaintext: Block): Command {
    LeEncrypt(Flip(key), Flip(plaintext))
  }

  /** What the scheduler needs of the request at the head before it can work on it. */
  predicate HeadOk(mode: Mode, e: Engine) {
    && e.operations != [] && !e.waitForHciResult
    && var head := e.operations[0];
    && (head.CcmRequest? ==> Ccm.CallOk(head.ccm) && Ccm.Calculating(head.ccm))
    && (head.CmacRequest? ==>
          && head.job.Ok()
          && (mode == Controller && e.cmac.state != Cmac.Idle ==>
                Cmac.Calculating(e.cmac)
                && (e.cmac.state == Cmac.CalcMi ==> 16 * (e.cmac.blockCurrent + 1) <= head.job.size)))
  }

  /** One iteration of the loop in btstack_crypto_run, past its three checks. */
  function Tick(mode: Mode, E: Cipher, e: Engine): Engine
    requires HeadOk(mode, e)
  {
    var head := e.operations[0];
    match head
    case Random(_, _, _) => Send(e, head, LeRand)
    case Aes128(_, key, plaintext, _) =>
      if mode == Software then Done(e, head.(ciphertext := E(key, plaintext)))
      else Send(e, head, AesStart(key, plaintext))
    case CmacRequest(_, job, _) =>
      if mode == Software then Done(e, head.(hash := Rfc4493.Cmac(E, job.key, job.Text())))
      else
        var ready := Cmac.EngineReady(if e.cmac.state == Cmac.Idle then Cmac.Start(job) else e.cmac, job);
        Send(e, head, AesStart(ready.cmac.k, ready.block)).(cmac := ready.cmac)
    case CcmRequest(_, c) =>
      Ccm.IssueKeeps(c);
      match Ccm.Issue(c)
      case Finished(c1) => Done(e, head.(ccm := c1))
      case Aes(c1, block) =>
        if mode == Software then CcmResult(e, head.(ccm := c1), E(c1.key, block))
        else Send(e, head.(ccm := c1), AesStart(c1.key, block))
  }

  function CcmResult(e: Engine, head: Request, y: Block): Engine
    requires e.operations != [] && head.CcmRequest? && Ccm.CallOk(head.ccm) && !Ccm.Calculating(head.ccm)
  {
    var a := Ccm.Absorb(head.ccm, y);
    if a.done then Done(e, head.(ccm := a.c))
    else e.(operations := [head.(ccm := a.c)] + e.operations[1..])
  }

  /** btstack_crypto_handle_random_data, after the wait flag has been cleared. */
  function RandomData(e: Engine, data: seq<byte>): Engine {
    if e.operations == [] || !e.operations[0].Random? then e
    else
      var r := e.operations[0];
      var n := Min(r.size, |data|);
      var r1 := r.(buffer := r.buffer + data[..n], size := r.size - n);
      if r1.size == 0 then Done(e, r1) else e.(operations := [r1] + e.operations[1..])
  }

  /** btstack_crypto_handle_encryption_result, after the wait flag has been cleared. */
  function EncryptionResult(e: Engine, data: Block): Engine {
    if e.operations == [] then e
    else
      var head := e.operations[0];
      match head
      case Random(_, _, _) => e
      case Aes128(_, _, _, _) => Done(e, head.(ciphertext := Flip(data)))
      case CmacRequest(_, job, _) =>
        if !Cmac.Waiting(e.cmac) then e
        else if e.cmac.state == Cmac.W4Mlast
        then Done(e, head.(hash := Flip(data))).(cmac := Cmac.Result(e.cmac, Flip(data)))
        else e.(cmac := Cmac.Result(e.cmac, Flip(data)))
      case CcmRequest(_, c) =>
        if !Ccm.CallOk(c) || Ccm.Calculating(c) then e else CcmResult(e, head, Flip(data))
  }

  datatype Event =
    | Submit(r: Request)
    | Iterate
    | Encrypted(result: Block)
    | RandomBytes(data: seq<byte>)

  /** A command-complete event is ignored unless a result is awaited. */
  function Answered(e: Engine): Engine
    requires e.outstanding != []
  {
    e.(waitForHciResult := false, outstanding := e.outstanding[1..])
  }

  /**
   What the environment may do: submit a request that is not queued already, let the scheduler
   iterate when it can, and have the controller answer its oldest command honestly.
   */
  ghost predicate Enabled(mode: Mode, E: Cipher, e: Engine, event: Event) {
    match event
    case Submit(r) => Ready(r) && forall i :: 0 <= i < |e.operations| ==> e.operations[i].id != r.id
    case Iterate => HeadOk(mode, e)
    case Encrypted(result) =>
      && e.waitForHciResult && e.outstanding != [] && e.outstanding[0].LeEncrypt?
      && result == Flip(E(Flip(e.outstanding[0].key), Flip(e.outstanding[0].plaintext)))
    case RandomBytes(data) =>
      e.waitForHciResult && e.outstanding != [] && e.outstanding[0].LeRand? && |data| == 8
  }

  function Step(mode: Mode, E: Cipher, e: Engine, event: Event): Engine
    requires Enabled(mode, E, e, event)
  {
    match event
    case Submit(r) => e.(operations := e.operations + [r])
    case Iterate => Tick(mode, E, e)
    case Encrypted(result) => EncryptionResult(Answered(e), result)
    case RandomBytes(data) => RandomData(Answered(e), data)
  }

  // ----- what a run must achieve -----

  /** r is the submitted request after its callback: every output is the right one. */
  ghost predicate Correct(mode: Mode, E: Cipher, submitted: Request, r: Request) {
    match submitted
    case Random(id, size, _) => r.Random? && r.id == id && r.size == 0 && |r.buffer| == size
    case Aes128(_, key, plaintext, _) => r == submitted.(ciphertext := E(key, plaintext))
    case CmacRequest(_, job, _) =>
      && job.Ok()
      && r == submitted.(hash := if mode == Software then Rfc4493.Cmac(E, job.key, job.Text()) else Cmac.AsyncHash(E, job))
    case CcmRequest(_, c) =>
      Ccm.CallOk(c) && Ccm.Calculating(c) && r == submitted.(ccm := Ccm.RunCall(E, c))
  }

  /** The controller results a request needs. */
  function Results(mode: Mode, r: Request): nat
    requires Ready(r)
  {
    match r
    case Random(_, size, _) => if size == 0 then 1 else (size + 7) / 8
    case Aes128(_, _, _, _) => if mode == Software then 0 else 1
    case CmacRequest(_, job, _) => if mode == Software then 0 else Cmac.BlockCount(job.size) + 1
    case CcmRequest(_, c) => if mode == Software then 0 else Ccm.Work(c)
  }

  /** The AES input the controller is working on. */
  function PendingBlock(e: Engine): Block {
    if e.outstanding != [] && e.outstanding[0].LeEncrypt? then Flip(e.outstanding[0].plaintext) else Zeros(16)
  }

  /** The head is a submitted request part of the way through; left results are still to come. */
  ghost predicate InProgress(mode: Mode, E: Cipher, submitted: Request, e: Engine, left: nat)
    requires e.operations != []
  {
    var head := e.operations[0];
    match submitted
    case Random(id, size, _) =>
      && head.Random? && head.id == id && |head.buffer| + head.size == size
      && left == (if head.size == 0 then 1 else (head.size + 7) / 8)
      && (e.waitForHciResult ==> e.outstanding == [LeRand])
      && e.cmac.state == Cmac.Idle
    case Aes128(_, key, plaintext, _) =>
      && head == submitted && left == Results(mode, head)
      && (e.waitForHciResult ==> mode == Controller && e.outstanding == [AesStart(key, plaintext)])
      && e.cmac.state == Cmac.Idle
    case CmacRequest(_, job, _) =>
      && head == submitted && job.Ok()
      && if mode == Software || e.cmac.state == Cmac.Idle
         then !e.waitForHciResult && left == Results(mode, head) && e.cmac.state == Cmac.Idle
         else
           && left == Cmac.ResultsLeft(e.cmac)
           && e.waitForHciResult == Cmac.Waiting(e.cmac)
           && Cmac.Working(E, e.cmac, job, PendingBlock(e))
           && (e.waitForHciResult ==> e.outstanding == [AesStart(job.key, PendingBlock(e))])
    case CcmRequest(_, c) =>
      && Ccm.CallOk(c) && Ccm.Calculating(c)
      && head.CcmRequest? && head == submitted.(ccm := head.ccm)
      && Ccm.CallOk(head.ccm) && e.waitForHciResult == !Ccm.Calculating(head.ccm)
      && left == (if mode == Software then 0 else Ccm.Work(head.ccm))
      && (mode == Software ==> !e.waitForHciResult)
      && e.cmac.state == Cmac.Idle
      && if e.waitForHciResult
         then e.outstanding == [AesStart(head.ccm.key, PendingBlock(e))]
              && Ccm.RunCall(E, c) == Ccm.Resume(E, head.ccm, E(head.ccm.key, PendingBlock(e)))
         else Ccm.RunCall(E, c) == Ccm.RunCall(E, head.ccm)
  }

  predicate AllReady(rs: seq<Request>) {
    forall i :: 0 <= i < |rs| ==> Ready(rs[i])
  }

  /** The controller results a series of requests needs. */
  function Total(mode: Mode, rs: seq<Request>): nat
    requires AllReady(rs)
  {
    if rs == [] then 0 else Results(mode, rs[0]) + Total(mode, rs[1..])
  }

  /**
   The invariant of every run. submitted lists the requests in submission order:
   the first |completed| are done and correct, the next one is at the head, the others wait
   untouched. At most one command is outstanding, the CMAC globals are in use only by a CMAC
   request at the head, and owed controller results will complete everything.
   */
  ghost predicate Invariant(mode: Mode, E: Cipher, e: Engine, submitted: seq<Request>, owed: nat) {
    var done := |e.completed|;
    && |submitted| == done + |e.operations|
    && AllReady(submitted)
    && (forall i :: 0 <= i < done ==> Correct(mode, E, submitted[i], e.completed[i]))
    && (forall i :: 1 <= i < |e.operations| ==> e.operations[i] == submitted[done + i])
    && |e.outstanding| == (if e.waitForHciResult then 1 else 0)
    && (if e.operations == [] then !e.waitForHciResult && e.cmac.state == Cmac.Idle && owed == 0
        else var waiting := Total(mode, submitted[done + 1..]);
             waiting <= owed && InProgress(mode, E, submitted[done], e, owed - waiting))
  }

  /** A request that has just reached the head. */
  lemma Untouched(mode: Mode, E: Cipher, r: Request, e: Engine)
    requires e.operations != [] && e.operations[0] == r && Ready(r) && !e.waitForHciResult && e.cmac.state == Cmac.Idle
    ensures InProgress(mode, E, r, e, Results(mode, r))
  {
  }

  /** Completing the head correctly hands the engine to the next request. */
  lemma DoneKeeps(mode: Mode, E: Cipher, e: Engine, e': Engine, submitted: seq<Request>, owed: nat, r: Request)
    requires Invariant(mode, E, e, submitted, owed) && e.operations != []
    requires e' == e.(operations := e.operations[1..], completed := e.completed + [r], waitForHciResult := false,
                      outstanding := [], cmac := e'.cmac)
    requires e'.cmac.state == Cmac.Idle
    requires Correct(mode, E, submitted[|e.completed|], r)
    ensures Invariant(mode, E, e', submitted, Total(mode, submitted[|e.completed| + 1..]))
  {
    hide Correct, Results, InProgress, Ready;
    var done := |e.completed|;
    forall i | 0 <= i < |e'.completed| ensures Correct(mode, E, submitted[i], e'.completed[i]) {
      if i == done { assert e'.completed[i] == r; }
    }
    if e'.operations != [] {
      assert e'.operations[0] == submitted[done + 1];
      Untouched(mode, E, submitted[done + 1], e');
      assert submitted[done + 1..][1..] == submitted[done + 2..];
    } else {
      assert submitted[done + 1..] == [];
    }
  }

  /** Changing only the head keeps everything else. */
  lemma HeadKeeps(mode: Mode, E: Cipher, e: Engine, e': Engine, submitted: seq<Request>, owed: nat, left: nat)
    requires Invariant(mode, E, e, submitted, owed) && e.operations != []
    requires e' == e.(operations := e'.operations, waitForHciResult := e'.waitForHciResult,
                      outstanding := e'.outstanding, cmac := e'.cmac)
    requires e'.operations != [] && e'.operations[1..] == e.operations[1..]
    requires |e'.outstanding| == (if e'.waitForHciResult then 1 else 0)
    requires InProgress(mode, E, submitted[|e.completed|], e', left)
    ensures Invariant(mode, E, e', submitted, Total(mode, submitted[|e.completed| + 1..]) + left)
  {
    hide Correct, Results, InProgress;
    forall i | 1 <= i < |e'.operations| ensures e'.operations[i] == submitted[|e.completed| + i] {
      assert e'.operations[i] == e'.operations[1..][i - 1] == e.operations[1..][i - 1];
    }
  }

  // ----- every step keeps the invariant -----

  lemma FlipTwice(b: Block)
    ensures Flip(Flip(b)) == b
  {
    ReverseTwice(b);
  }

  /** The engine after an iteration that sent a block of the head to the controller. */
  lemma SentBlock(e: Engine, r: Request, key: Block, block: Block, cmac: Cmac.Cmac)
    requires e.operations != [] && e.outstanding == []
    ensures var e' := Send(e, r, AesStart(key, block)).(cmac := cmac);
            && PendingBlock(e') == block && e'.outstanding == [AesStart(key, block)]
            && e'.operations[0] == r && e'.operations[1..] == e.operations[1..]
  {
    FlipTwice(block);
  }

  lemma TickRandom(mode: Mode, E: Cipher, e: Engine, submitted: seq<Request>, owed: nat)
    requires Invariant(mode, E, e, submitted, owed) && HeadOk(mode, e) && e.operations[0].Random?
    ensures Invariant(mode, E, Tick(mode, E, e), submitted, owed)
  {
    hide Correct;
    var left := owed - Total(mode, submitted[|e.completed| + 1..]);
    HeadKeeps(mode, E, e, Tick(mode, E, e), submitted, owed, left);
  }

  lemma TickAes(mode: Mode, E: Cipher, e: Engine, submitted: seq<Request>, owed: nat)
    requires Invariant(mode, E, e, submitted, owed) && HeadOk(mode, e) && e.operations[0].Aes128?
    ensures Invariant(mode, E, Tick(mode, E, e), submitted, owed)
  {
    var left := owed - Total(mode, submitted[|e.completed| + 1..]);
    var e' := Tick(mode, E, e);
    if mode == Software {
      DoneKeeps(mode, E, e, e', submitted, owed, e'.completed[|e.completed|]);
    } else {
      HeadKeeps(mode, E, e, e', submitted, owed, left);
    }
  }

  lemma TickCmac(mode: Mode, E: Cipher, e: Engine, submitted: seq<Request>, owed: nat)
    requires Invariant(mode, E, e, submitted, owed) && HeadOk(mode, e) && e.operations[0].CmacRequest?
    ensures Invariant(mode, E, Tick(mode, E, e), submitted, owed)
  {
    hide Cmac.Working, Rfc4493.Cmac, Cmac.EngineReady;
    var head := e.operations[0];
    var left := owed - Total(mode, submitted[|e.completed| + 1..]);
    var e' := Tick(mode, E, e);
    if mode == Software {
      DoneKeeps(mode, E, e, e', submitted, owed, e'.completed[|e.completed|]);
    } else {
      Cmac.StartWorks(E, head.job, PendingBlock(e));
      var c := if e.cmac.state == Cmac.Idle then Cmac.Start(head.job) else e.cmac;
      Cmac.EngineReadyWorks(E, c, head.job, PendingBlock(e));
      var ready := Cmac.EngineReady(c, head.job);
      WorkingKey(E, ready.cmac, head.job, ready.block);
      SentBlock(e, head, ready.cmac.k, ready.block, ready.cmac);
      HeadKeeps(mode, E, e, e', submitted, owed, left);
    }
  }

  lemma WorkingKey(E: Cipher, c: Cmac.Cmac, job: Cmac.Job, block: Block)
    requires Cmac.Working(E, c, job, block)
    ensures c.k == job.key && c.state != Cmac.Idle
  {
  }

  lemma CcmResultKeeps(mode: Mode, E: Cipher, e: Engine, submitted: seq<Request>, owed: nat, head: Request, y: Block, left: nat)
    requires Invariant(mode, E, e, submitted, owed) && e.operations != [] && submitted[|e.completed|].CcmRequest?
    requires !e.waitForHciResult && e.cmac.state == Cmac.Idle
    requires head.CcmRequest? && head == submitted[|e.completed|].(ccm := head.ccm)
    requires Ccm.CallOk(head.ccm) && !Ccm.Calculating(head.ccm)
    requires Ccm.CallOk(submitted[|e.completed|].ccm) && Ccm.Calculating(submitted[|e.completed|].ccm)
    requires Ccm.RunCall(E, submitted[|e.completed|].ccm) == Ccm.Resume(E, head.ccm, y)
    requires mode == Controller ==> left == Ccm.Work(head.ccm) - 1
    requires mode == Software ==> left == 0
    ensures Invariant(mode, E, CcmResult(e, head, y), submitted, Total(mode, submitted[|e.completed| + 1..]) + left)
  {
    hide Ccm.Absorb, Ccm.Work, Ccm.RunCall;
    Ccm.AbsorbKeeps(head.ccm, y);
    var e' := CcmResult(e, head, y);
    var a := Ccm.Absorb(head.ccm, y);
    if a.done {
      DoneKeeps(mode, E, e, e', submitted, owed, head.(ccm := a.c));
    } else {
      assert e'.operations[1..] == e.operations[1..];
      HeadKeeps(mode, E, e, e', submitted, owed, left);
    }
  }

  lemma TickCcm(mode: Mode, E: Cipher, e: Engine, submitted: seq<Request>, owed: nat)
    requires Invariant(mode, E, e, submitted, owed) && HeadOk(mode, e) && e.operations[0].CcmRequest?
    ensures Invariant(mode, E, Tick(mode, E, e), submitted, owed)
  {
    hide Ccm.Issue, Ccm.Absorb, Ccm.Work, Total;
    var head := e.operations[0];
    var left := owed - Total(mode, submitted[|e.completed| + 1..]);
    var e' := Tick(mode, E, e);
    Ccm.IssueKeeps(head.ccm);
    match Ccm.Issue(head.ccm)
    case Finished(c1) => DoneKeeps(mode, E, e, e', submitted, owed, head.(ccm := c1));
    case Aes(c1, block) =>
      if mode == Software {
        CcmResultKeeps(mode, E, e, submitted, owed, head.(ccm := c1), E(c1.key, block), left);
      } else {
        SentBlock(e, head.(ccm := c1), c1.key, block, e.cmac);
        HeadKeeps(mode, E, e, e', submitted, owed, left);
      }
  }

  lemma TickKeeps(mode: Mode, E: Cipher, e: Engine, submitted: seq<Request>, owed: nat)
    requires Invariant(mode, E, e, submitted, owed) && HeadOk(mode, e)
    ensures Invariant(mode, E, Tick(mode, E, e), submitted, owed)
  {
    hide Tick, Invariant;
    match e.operations[0]
    case Random(_, _, _) => TickRandom(mode, E, e, submitted, owed);
    case Aes128(_, _, _, _) => TickAes(mode, E, e, submitted, owed);
    case CmacRequest(_, _, _) => TickCmac(mode, E, e, submitted, owed);
    case CcmRequest(_, _) => TickCcm(mode, E, e, submitted, owed);
  }

  /** A random number goes to the request that asked for it: the head. */
  lemma RandomKeeps(mode: Mode, E: Cipher, e: Engine, submitted: seq<Request>, owed: nat, data: seq<byte>)
    requires Invariant(mode, E, e, submitted, owed) && Enabled(mode, E, e, RandomBytes(data))
    ensures owed > 0 && Invariant(mode, E, Step(mode, E, e, RandomBytes(data)), submitted, owed - 1)
    ensures e.operations != [] && e.operations[0].Random?
    ensures var head, e' := e.operations[0], Step(mode, E, e, RandomBytes(data));
            if head.size <= 8
            then e'.operations == e.operations[1..]
                 && e'.completed == e.completed + [head.(buffer := head.buffer + data[..head.size], size := 0)]
            else e'.operations == [head.(buffer := head.buffer + data, size := head.size - 8)] + e.operations[1..]
                 && e'.completed == e.completed
  {
    hide Cmac.Working, Ccm.RunCall, Ccm.Work, Total, Ccm.CallOk, Ccm.Calculating, Cmac.ResultsLeft;
    var e' := Step(mode, E, e, RandomBytes(data));
    var head := e.operations[0];
    assert head.Random?;
    var n := Min(head.size, 8);
    var r1 := head.(buffer := head.buffer + data[..n], size := head.size - n);
    if r1.size == 0 {
      DoneKeeps(mode, E, e, e', submitted, owed, r1);
    } else {
      HeadKeeps(mode, E, e, e', submitted, owed, (r1.size + 7) / 8);
      assert data[..8] == data;
    }
  }

  /** An honest answer, turned back into the engine's byte order. */
  lemma HonestAnswer(E: Cipher, key: Block, block: Block)
    ensures var sent := AesStart(key, block);
            Flip(Flip(E(Flip(sent.key), Flip(sent.plaintext)))) == E(key, block)
  {
    FlipTwice(key);
    FlipTwice(block);
    FlipTwice(E(key, block));
  }

  lemma AesAnswerKeeps(mode: Mode, E: Cipher, e: Engine, submitted: seq<Request>, owed: nat, result: Block)
    requires Invariant(mode, E, e, submitted, owed) && Enabled(mode, E, e, Encrypted(result)) && submitted[|e.completed|].Aes128?
    ensures owed > 0 && Invariant(mode, E, Step(mode, E, e, Encrypted(result)), submitted, owed - 1)
  {
    var head := e.operations[0];
    HonestAnswer(E, head.key, head.plaintext);
    DoneKeeps(mode, E, e, Step(mode, E, e, Encrypted(result)), submitted, owed, head.(ciphertext := Flip(result)));
  }

  lemma CmacAnswerKeeps(mode: Mode, E: Cipher, e: Engine, submitted: seq<Request>, owed: nat, result: Block)
    requires Invariant(mode, E, e, submitted, owed) && Enabled(mode, E, e, Encrypted(result)) && submitted[|e.completed|].CmacRequest?
    ensures owed > 0 && Invariant(mode, E, Step(mode, E, e, Encrypted(result)), submitted, owed - 1)
  {
    hide Cmac.Working, Cmac.AsyncHash;
    var head := e.operations[0];
    var e' := Step(mode, E, e, Encrypted(result));
    var left := owed - Total(mode, submitted[|e.completed| + 1..]);
    var block := PendingBlock(e);
    HonestAnswer(E, head.job.key, block);
    Cmac.ResultWorks(E, e.cmac, head.job, block, PendingBlock(e'));
    if e.cmac.state == Cmac.W4Mlast {
      DoneKeeps(mode, E, e, e', submitted, owed, head.(hash := Flip(result)));
    } else {
      HeadKeeps(mode, E, e, e', submitted, owed, left - 1);
    }
  }

  lemma CcmAnswerKeeps(mode: Mode, E: Cipher, e: Engine, submitted: seq<Request>, owed: nat, result: Block)
    requires Invariant(mode, E, e, submitted, owed) && Enabled(mode, E, e, Encrypted(result)) && submitted[|e.completed|].CcmRequest?
    ensures owed > 0 && Invariant(mode, E, Step(mode, E, e, Encrypted(result)), submitted, owed - 1)
  {
    hide Ccm.Absorb, Ccm.Work, Ccm.RunCall, Ccm.Resume;
    var head := e.operations[0];
    var left := owed - Total(mode, submitted[|e.completed| + 1..]);
    var block := PendingBlock(e);
    HonestAnswer(E, head.ccm.key, block);
    Ccm.AbsorbKeeps(head.ccm, E(head.ccm.key, block));
    AnsweredKeeps(mode, E, e, submitted, owed, head, block, left);
  }

  lemma AnsweredKeeps(mode: Mode, E: Cipher, e: Engine, submitted: seq<Request>, owed: nat, head: Request, block: Block, left: nat)
    requires Invariant(mode, E, e, submitted, owed) && e.operations != [] && head == e.operations[0] && submitted[|e.completed|].CcmRequest?
    requires e.waitForHciResult && block == PendingBlock(e) && left == owed - Total(mode, submitted[|e.completed| + 1..]) > 0
    ensures head.CcmRequest? && Ccm.CallOk(head.ccm) && !Ccm.Calculating(head.ccm)
    ensures Invariant(mode, E, CcmResult(Answered(e), head, E(head.ccm.key, block)), submitted, owed - 1)
  {
    hide Ccm.Absorb, Ccm.Work, Ccm.RunCall;
    var y := E(head.ccm.key, block);
    Ccm.AbsorbKeeps(head.ccm, y);
    var a := Ccm.Absorb(head.ccm, y);
    var e' := CcmResult(Answered(e), head, y);
    if a.done {
      DoneKeeps(mode, E, e, e', submitted, owed, head.(ccm := a.c));
    } else {
      assert e'.operations[1..] == e.operations[1..];
      HeadKeeps(mode, E, e, e', submitted, owed, left - 1);
    }
  }

  lemma EncryptedKeeps(mode: Mode, E: Cipher, e: Engine, submitted: seq<Request>, owed: nat, result: Block)
    requires Invariant(mode, E, e, submitted, owed) && Enabled(mode, E, e, Encrypted(result))
    ensures owed > 0 && Invariant(mode, E, Step(mode, E, e, Encrypted(result)), submitted, owed - 1)
  {
    hide Step, Cmac.Working, Ccm.RunCall, Ccm.Work;
    assert e.operations != [];
    match submitted[|e.completed|]
    case Random(_, _, _) => assert false;
    case Aes128(_, _, _, _) => AesAnswerKeeps(mode, E, e, submitted, owed, result);
    case CmacRequest(_, _, _) => CmacAnswerKeeps(mode, E, e, submitted, owed, result);
    case CcmRequest(_, _) => CcmAnswerKeeps(mode, E, e, submitted, owed, result);
  }

  lemma {:induction false} TotalAppend(mode: Mode, rs: seq<Request>, r: Request)
    requires AllReady(rs) && Ready(r)
    ensures Total(mode, rs + [r]) == Total(mode, rs) + Results(mode, r)
  {
    if rs == [] {
      assert [] + [r] == [r];
    } else {
      assert (rs + [r])[1..] == rs[1..] + [r];
      TotalAppend(mode, rs[1..], r);
    }
  }

  lemma TotalEmpty(mode: Mode)
    ensures Total(mode, []) == 0
  {
  }

  lemma SubmitKeeps(mode: Mode, E: Cipher, e: Engine, submitted: seq<Request>, owed: nat, r: Request)
    requires Invariant(mode, E, e, submitted, owed) && Ready(r)
    ensures Invariant(mode, E, e.(operations := e.operations + [r]), submitted + [r], owed + Results(mode, r))
  {
    hide Correct, Results, InProgress, Ready, Total;
    TotalEmpty(mode);
    var e', done, submitted' := e.(operations := e.operations + [r]), |e.completed|, submitted + [r];
    if e.operations == [] {
      assert submitted'[done + 1..] == [];
      Untouched(mode, E, r, e');
    } else {
      assert submitted'[done + 1..] == submitted[done + 1..] + [r];
      TotalAppend(mode, submitted[done + 1..], r);
      InProgressAppend(mode, E, submitted[done], e, owed - Total(mode, submitted[done + 1..]), r);
    }
  }

  lemma InProgressAppend(mode: Mode, E: Cipher, s: Request, e: Engine, left: nat, r: Request)
    requires e.operations != [] && InProgress(mode, E, s, e, left)
    ensures InProgress(mode, E, s, e.(operations := e.operations + [r]), left)
  {
    hide Cmac.Working, Ccm.RunCall, Ccm.Work;
  }

  // ----- whole runs -----

  function Idle(c: Cmac.Cmac): Engine
    requires c.state == Cmac.Idle
  {
    Engine([], false, c, [], [])
  }

  /** The events of a run, each enabled when it happens. */
  ghost predicate ValidRun(mode: Mode, E: Cipher, e: Engine, events: seq<Event>)
    decreases |events|
  {
    events == [] || (Enabled(mode, E, e, events[0]) && ValidRun(mode, E, Step(mode, E, e, events[0]), events[1..]))
  }

  ghost function After(mode: Mode, E: Cipher, e: Engine, events: seq<Event>): Engine
    requires ValidRun(mode, E, e, events)
    decreases |events|
  {
    if events == [] then e else After(mode, E, Step(mode, E, e, events[0]), events[1..])
  }

  function Submitted(events: seq<Event>): seq<Request> {
    if events == [] then []
    else (if events[0].Submit? then [events[0].r] else []) + Submitted(events[1..])
  }

  /** How many controller results arrived. */
  function Answers(events: seq<Event>): nat {
    if events == [] then 0
    else (if events[0].Encrypted? || events[0].RandomBytes? then 1 else 0) + Answers(events[1..])
  }

  lemma StepKeeps(mode: Mode, E: Cipher, e: Engine, submitted: seq<Request>, owed: nat, event: Event)
    requires Invariant(mode, E, e, submitted, owed) && Enabled(mode, E, e, event)
    ensures Answers([event]) <= owed
    ensures match event
            case Submit(r) =>
              Ready(r) && Invariant(mode, E, Step(mode, E, e, event), submitted + [r], owed + Results(mode, r))
            case Iterate => Invariant(mode, E, Step(mode, E, e, event), submitted, owed)
            case _ => Invariant(mode, E, Step(mode, E, e, event), submitted, owed - 1)
  {
    hide Invariant, Tick, EncryptionResult, RandomData, Results;
    assert [event][1..] == [];
    match event
    case Submit(r) => SubmitKeeps(mode, E, e, submitted, owed, r);
    case Iterate => TickKeeps(mode, E, e, submitted, owed);
    case Encrypted(result) => EncryptedKeeps(mode, E, e, submitted, owed, result);
    case RandomBytes(data) => RandomKeeps(mode, E, e, submitted, owed, data);
  }

  /** The submissions of a run, split at its first event. */
  lemma SubmittedSplit(events: seq<Event>)
    requires events != [] && AllReady(Submitted(events))
    ensures AllReady(Submitted(events[1..]))
    ensures events[0].Submit? ==> Ready(events[0].r) && Submitted(events)[1..] == Submitted(events[1..])
    ensures !events[0].Submit? ==> Submitted(events) == Submitted(events[1..])
  {
    hide Ready;
    var all, rest := Submitted(events), Submitted(events[1..]);
    if events[0].Submit? {
      assert all == [events[0].r] + rest;
      AllReadyTail(events[0].r, rest);
    } else {
      assert all == [] + rest == rest;
    }
  }

  lemma AllReadyTail(r: Request, rs: seq<Request>)
    requires AllReady([r] + rs)
    ensures Ready(r) && AllReady(rs) && ([r] + rs)[1..] == rs
  {
    hide Ready;
    assert ([r] + rs)[0] == r;
    forall i | 0 <= i < |rs| ensures Ready(rs[i]) {
      assert rs[i] == ([r] + rs)[i + 1];
    }
  }

  /** The controller results owed after a run: each submission adds its needs, each answer meets one. */
  function OwedAfter(mode: Mode, owed: int, events: seq<Event>): int
    requires AllReady(Submitted(events))
    decreases |events|
  {
    if events == [] then owed
    else
      SubmittedSplit(events);
      match events[0]
      case Submit(r) => OwedAfter(mode, owed + Results(mode, r), events[1..])
      case Iterate => OwedAfter(mode, owed, events[1..])
      case _ => OwedAfter(mode, owed - 1, events[1..])
  }

  lemma {:induction false} OwedBalance(mode: Mode, owed: int, events: seq<Event>)
    requires AllReady(Submitted(events))
    ensures OwedAfter(mode, owed, events) + Answers(events) == owed + Total(mode, Submitted(events))
    decreases |events|
  {
    hide Results, Ready;
    if events != [] {
      SubmittedSplit(events);
      match events[0]
      case Submit(r) => OwedBalance(mode, owed + Results(mode, r), events[1..]);
      case Iterate => OwedBalance(mode, owed, events[1..]);
      case _ => OwedBalance(mode, owed - 1, events[1..]);
    }
  }

  lemma {:induction false} SubmittedReady(mode: Mode, E: Cipher, e: Engine, events: seq<Event>)
    requires ValidRun(mode, E, e, events)
    ensures AllReady(Submitted(events))
    decreases |events|
  {
    hide Step, Ready;
    if events != [] {
      assert events[0].Submit? ==> Ready(events[0].r);
      SubmittedReady(mode, E, Step(mode, E, e, events[0]), events[1..]);
    }
  }

  lemma {:induction false} RunKeeps(mode: Mode, E: Cipher, e: Engine, events: seq<Event>, submitted: seq<Request>, owed: nat)
    requires ValidRun(mode, E, e, events) && Invariant(mode, E, e, submitted, owed)
    requires AllReady(Submitted(events))
    ensures var owed' := OwedAfter(mode, owed, events);
            owed' >= 0 && Invariant(mode, E, After(mode, E, e, events), submitted + Submitted(events), owed')
    decreases |events|
  {
    hide Invariant, Enabled, Step, Results, Ready;
    if events == [] {
      assert submitted + [] == submitted;
    } else {
      var event, rest := events[0], events[1..];
      SubmittedSplit(events);
      StepKeeps(mode, E, e, submitted, owed, event);
      var e' := Step(mode, E, e, event);
      if event.Submit? {
        assert submitted + Submitted(events) == (submitted + [event.r]) + Submitted(rest);
        RunKeeps(mode, E, e', rest, submitted + [event.r], owed + Results(mode, event.r));
      } else {
        assert submitted + Submitted(events) == submitted + Submitted(rest);
        assert [event][1..] == [];
        RunKeeps(mode, E, e', rest, submitted, owed - Answers([event]));
      }
    }
  }

  /**
   Safety over every run from an idle engine: requests complete in submission order, each once and
   with the right outputs; at most one controller command is outstanding; the CMAC globals are idle
   unless a CMAC request is at the head; and the controller results received plus those still owed
   are exactly the sum over the submitted requests.
   */
  lemma EngineSafety(mode: Mode, E: Cipher, c: Cmac.Cmac, events: seq<Event>)
    requires c.state == Cmac.Idle && ValidRun(mode, E, Idle(c), events)
    ensures var e, rs := After(mode, E, Idle(c), events), Submitted(events);
            && |rs| == |e.completed| + |e.operations|
            && (forall i :: 0 <= i < |e.completed| ==> Correct(mode, E, rs[i], e.completed[i]))
            && (forall i :: 1 <= i < |e.operations| ==> e.operations[i] == rs[|e.completed| + i])
            && (forall i :: 0 <= i < |e.operations| ==> e.operations[i].id == rs[|e.completed| + i].id)
            && |e.outstanding| == (if e.waitForHciResult then 1 else 0)
            && (e.cmac.state != Cmac.Idle ==> e.operations != [] && e.operations[0].CmacRequest?)
            && AllReady(rs)
            && Answers(events) <= Total(mode, rs)
            && (e.operations == [] ==> Answers(events) == Total(mode, rs))
  {
    hide Correct, Invariant, After, ValidRun, Submitted, Answers, Total, AllReady, OwedAfter;
    var e, rs := After(mode, E, Idle(c), events), Submitted(events);
    IdleKeeps(mode, E, c);
    SubmittedReady(mode, E, Idle(c), events);
    RunKeeps(mode, E, Idle(c), events, [], 0);
    OwedBalance(mode, 0, events);
    assert [] + rs == rs;
    InvariantMeans(mode, E, e, rs, OwedAfter(mode, 0, events));
  }

  /** The outputs that must not depend on where AES runs. */
  predicate SameInBothModes(r: Request) {
    match r
    case Random(_, _, _) => false
    case CmacRequest(_, job, _) => job.size <= 4080
    case _ => true
  }

  /**
   The two execution modes agree: for the same submissions, whatever the two schedules, a request
   completed in both runs has the same outputs, up to CMAC messages of 4080 bytes.
   */
  lemma ModesAgree(E: Cipher, c: Cmac.Cmac, inSoftware: seq<Event>, byController: seq<Event>, i: nat)
    requires c.state == Cmac.Idle && Submitted(inSoftware) == Submitted(byController)
    requires ValidRun(Software, E, Idle(c), inSoftware) && ValidRun(Controller, E, Idle(c), byController)
    requires i < |After(Software, E, Idle(c), inSoftware).completed|
    requires i < |After(Controller, E, Idle(c), byController).completed|
    requires i < |Submitted(inSoftware)| && SameInBothModes(Submitted(inSoftware)[i])
    ensures After(Software, E, Idle(c), inSoftware).completed[i] == After(Controller, E, Idle(c), byController).completed[i]
  {
    hide ValidRun, After, Submitted, Rfc4493.Cmac, Cmac.AsyncHash, Ccm.RunCall, Results;
    EngineSafety(Software, E, c, inSoftware);
    EngineSafety(Controller, E, c, byController);
    var r := Submitted(inSoftware)[i];
    if r.CmacRequest? {
      Cmac.AsyncHashIsCmac(E, r.job);
    }
  }

  lemma IdleKeeps(mode: Mode, E: Cipher, c: Cmac.Cmac)
    requires c.state == Cmac.Idle
    ensures Invariant(mode, E, Idle(c), [], 0) && Total(mode, []) == 0
  {
  }

  lemma InvariantMeans(mode: Mode, E: Cipher, e: Engine, rs: seq<Request>, owed: nat)
    requires Invariant(mode, E, e, rs, owed)
    ensures && |rs| == |e.completed| + |e.operations|
            && (forall i :: 0 <= i < |e.completed| ==> Correct(mode, E, rs[i], e.completed[i]))
            && (forall i :: 1 <= i < |e.operations| ==> e.operations[i] == rs[|e.completed| + i])
            && (forall i :: 0 <= i < |e.operations| ==> e.operations[i].id == rs[|e.completed| + i].id)
            && |e.outstanding| == (if e.waitForHciResult then 1 else 0)
            && (e.cmac.state != Cmac.Idle ==> e.operations != [] && e.operations[0].CmacRequest?)
            && (e.operations == [] ==> owed == 0)
  {
    hide Correct, Cmac.Working, Ccm.RunCall;
  }

  // ----- progress -----

  /** The scheduler iterations that the queued requests can still use without a controller result. */
  function Effort(rs: seq<Request>): nat {
    if rs == [] then 0
    else (if rs[0].CcmRequest? && Ccm.CallOk(rs[0].ccm) then Ccm.Work(rs[0].ccm) else 0) + 1 + Effort(rs[1..])
  }

  /** Every iteration of the while (true) loop uses up effort, or makes the next one return. */
  lemma TickProgress(mode: Mode, E: Cipher, e: Engine)
    requires HeadOk(mode, e)
    ensures var e' := Tick(mode, E, e);
            || Effort(e'.operations) < Effort(e.operations)
            || (Effort(e'.operations) == Effort(e.operations) && e'.waitForHciResult)
  {
    hide Ccm.Issue, Ccm.Absorb, Ccm.Work, Cmac.EngineReady, Rfc4493.Cmac;
    var head := e.operations[0];
    var e' := Tick(mode, E, e);
    assert e'.operations == e.operations[1..] || e'.operations[1..] == e.operations[1..];
    if head.CcmRequest? {
      Ccm.IssueKeeps(head.ccm);
      var issued := Ccm.Issue(head.ccm);
      if issued.Aes? {
        Ccm.AbsorbKeeps(issued.c, E(issued.c.key, issued.block));
      }
    }
  }

  /** The answer an honest controller gives to a command; random numbers may be anything. */
  function HonestEvent(E: Cipher, command: Command): Event {
    match command
    case LeRand => RandomBytes(Zeros(8))
    case LeEncrypt(key, plaintext) => Encrypted(Flip(E(Flip(key), Flip(plaintext))))
  }

  /** While requests are queued, the scheduler can iterate or the controller owes an answer. */
  lemma NeverStuck(mode: Mode, E: Cipher, e: Engine, submitted: seq<Request>, owed: nat)
    requires Invariant(mode, E, e, submitted, owed) && e.operations != []
    ensures if e.waitForHciResult then e.outstanding != [] && Enabled(mode, E, e, HonestEvent(E, e.outstanding[0]))
            else Enabled(mode, E, e, Iterate)
  {
    hide Ccm.RunCall, Ccm.Work;
  }

  /** From every reachable state some run without submissions completes all requests. */
  lemma {:induction false} Drains(mode: Mode, E: Cipher, e: Engine, submitted: seq<Request>, owed: nat) returns (events: seq<Event>)
    requires Invariant(mode, E, e, submitted, owed)
    ensures Submitted(events) == [] && ValidRun(mode, E, e, events) && After(mode, E, e, events).operations == []
    decreases owed, Effort(e.operations), if e.waitForHciResult then 0 else 1
  {
    hide Invariant, Tick, Enabled, HonestEvent, Total;
    if e.operations == [] {
      events := [];
    } else {
      NeverStuck(mode, E, e, submitted, owed);
      var event := if e.waitForHciResult then HonestEvent(E, e.outstanding[0]) else Iterate;
      NotSubmit(E, e, event);
      StepKeeps(mode, E, e, submitted, owed, event);
      var e' := Step(mode, E, e, event);
      var rest;
      if event == Iterate {
        IterateProgress(mode, E, e);
        rest := Drains(mode, E, e', submitted, owed);
      } else {
        assert Answers([event]) == 1 by { assert [event][1..] == []; }
        rest := Drains(mode, E, e', submitted, owed - 1);
      }
      events := [event] + rest;
      assert events[1..] == rest;
    }
  }

  lemma NotSubmit(E: Cipher, e: Engine, event: Event)
    requires event == Iterate || (e.outstanding != [] && event == HonestEvent(E, e.outstanding[0]))
    ensures !event.Submit? && (event != Iterate ==> event.Encrypted? || event.RandomBytes?)
  {
  }

  lemma IterateProgress(mode: Mode, E: Cipher, e: Engine)
    requires Enabled(mode, E, e, Iterate)
    ensures !e.waitForHciResult
    ensures var e' := Step(mode, E, e, Iterate);
            || Effort(e'.operations) < Effort(e.operations)
            || (Effort(e'.operations) == Effort(e.operations) && e'.waitForHciResult)
  {
    TickProgress(mode, E, e);
  }

  /** A controller result never adds to the effort. */
  lemma AnswerProgress(mode: Mode, E: Cipher, e: Engine, submitted: seq<Request>, owed: nat, event: Event)
    requires Invariant(mode, E, e, submitted, owed) && Enabled(mode, E, e, event) && !event.Submit? && event != Iterate
    ensures Effort(Step(mode, E, e, event).operations) <= Effort(e.operations)
  {
    hide Ccm.Absorb, Ccm.Work, Ccm.RunCall, Ccm.Resume, Cmac.Result, Cmac.Working, Total, Correct;
    var head := e.operations[0];
    var e' := Step(mode, E, e, event);
    assert e'.operations == e.operations[1..] || e'.operations[1..] == e.operations[1..];
    if event.Encrypted? && head.CcmRequest? && Ccm.CallOk(head.ccm) && !Ccm.Calculating(head.ccm) {
      Ccm.AbsorbKeeps(head.ccm, Flip(event.result));
    }
  }

  /**
   Termination over every schedule: a run without submissions is no longer than what the requests
   need, so every such run that goes on as long as it can completes all requests.
   */
  lemma {:induction false} RunsAreShort(mode: Mode, E: Cipher, e: Engine, events: seq<Event>, submitted: seq<Request>, owed: nat)
    requires Invariant(mode, E, e, submitted, owed)
    ensures ValidRun(mode, E, e, events) && Submitted(events) == [] ==>
              |events| <= 2 * owed + Effort(e.operations) + (if e.waitForHciResult then 0 else 1)
    decreases |events|
  {
    hide Invariant, Tick, Enabled, Effort;
    if events != [] && ValidRun(mode, E, e, events) && Submitted(events) == [] {
      var event, rest := events[0], events[1..];
      assert !event.Submit? && Submitted(rest) == [];
      StepKeeps(mode, E, e, submitted, owed, event);
      var e' := Step(mode, E, e, event);
      if event == Iterate {
        IterateProgress(mode, E, e);
        RunsAreShort(mode, E, e', rest, submitted, owed);
      } else {
        assert Answers([event]) == 1 by { assert [event][1..] == []; }
        AnswerProgress(mode, E, e, submitted, owed, event);
        RunsAreShort(mode, E, e', rest, submitted, owed - 1);
      }
    }
  }

  /** A run without submissions that cannot be continued has completed everything. */
  lemma MaximalRunsDrain(mode: Mode, E: Cipher, c: Cmac.Cmac, before: seq<Event>, events: seq<Event>)
    requires c.state == Cmac.Idle && ValidRun(mode, E, Idle(c), before)
    requires ValidRun(mode, E, After(mode, E, Idle(c), before), events) && Submitted(events) == []
    requires var e := After(mode, E, After(mode, E, Idle(c), before), events);
             !Enabled(mode, E, e, Iterate) && (e.outstanding != [] ==> !Enabled(mode, E, e, HonestEvent(E, e.outstanding[0])))
    ensures var e := After(mode, E, After(mode, E, Idle(c), before), events);
            e.operations == [] && |e.completed| == |Submitted(before)|
  {
    hide Invariant, After, ValidRun, Submitted, Total, Enabled;
    var start := After(mode, E, Idle(c), before);
    var e := After(mode, E, start, events);
    IdleKeeps(mode, E, c);
    SubmittedReady(mode, E, Idle(c), before);
    RunKeeps(mode, E, Idle(c), before, [], 0);
    var owed: int := OwedAfter(mode, 0, before);
    assert [] + Submitted(before) == Submitted(before);
    SubmittedReady(mode, E, start, events);
    RunKeeps(mode, E, start, events, Submitted(before), owed);
    assert Submitted(before) + [] == Submitted(before);
    var left: int := OwedAfter(mode, owed, events);
    InvariantMeans(mode, E, e, Submitted(before), left);
    if e.operations != [] {
      NeverStuck(mode, E, e, Submitted(before), left);
    }
  }
}
