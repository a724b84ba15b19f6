/**
 The engine as the source writes it: globals updated step by step by the scheduler loop, the
 submitting functions and the controller's events. Every method is proved against the
 transitions of CryptoQueue.
 */
module CryptoEngine {
  import opened Bytes
  import opened CryptoQueue
  import Rfc4493
  import CmacSoftware
  import Ccm = CcmMachine
  import Cmac = CmacMachine

  function Iterates(n: nat): (s: seq<Event>)
    ensures |s| == n && forall i :: 0 <= i < n ==> s[i] == Iterate
  {
    seq(n, _ => Iterate)
  }

  class BtstackCrypto {
    const mode: Mode
    const E: Cipher

    var operations: seq<Request>
    var waitForHciResult: bool
    var cmacState: Cmac.State
    var cmacK: Block
    var cmacX: Block
    var cmacSubkey: Block
    var cmacBlockCurrent: byte
    var cmacBlockCount: byte

    // History, for the specification: commands not yet answered, requests called back, requests
    // submitted, and the controller results still owed.
    ghost var outstanding: seq<Command>
    ghost var completed: seq<Request>
    ghost var submitted: seq<Request>
    ghost var owed: nat

    function CmacGlobals(): Cmac.Cmac
      reads this
    {
      Cmac.Cmac(cmacState, cmacK, cmacX, cmacSubkey, cmacBlockCurrent, cmacBlockCount)
    }

    ghost function Abs(): Engine
      reads this
    {
      Engine(operations, waitForHciResult, CmacGlobals(), outstanding, completed)
    }

    ghost predicate Valid()
      reads this
    {
      Invariant(mode, E, Abs(), submitted, owed)
    }

    constructor (mode: Mode, E: Cipher)
      ensures Valid() && this.mode == mode && this.E == E
      ensures operations == [] && completed == [] && submitted == []
    {
      this.mode, this.E := mode, E;
      operations, waitForHciResult := [], false;
      cmacState, cmacK, cmacX, cmacSubkey := Cmac.Idle, Zeros(16), Zeros(16), Zeros(16);
      cmacBlockCurrent, cmacBlockCount := 0, 0;
      outstanding, completed, submitted, owed := [], [], [], 0;
    }

    /** btstack_crypto_done: pop the head, run its callback. */
    method Complete(r: Request)
      requires operations != []
      modifies this`operations, this`completed
      ensures Abs() == Done(old(Abs()), r)
    {
      operations := operations[1..];
      completed := completed + [r];
    }

    /** hci_send_cmd for the request at the head. */
    method SendCommand(r: Request, command: Command)
      requires operations != []
      modifies this`operations, this`waitForHciResult, this`outstanding
      ensures Abs() == Send(old(Abs()), r, command)
    {
      operations := [r] + operations[1..];
      waitForHciResult := true;
      outstanding := outstanding + [command];
    }

    method CmacStart(job: Cmac.Job)
      modifies this`cmacState, this`cmacK, this`cmacX, this`cmacSubkey, this`cmacBlockCurrent, this`cmacBlockCount
      ensures CmacGlobals() == Cmac.Start(job)
    {
      cmacK, cmacX, cmacSubkey := job.key, Zeros(16), Zeros(16);
      cmacBlockCurrent := 0;
      cmacBlockCount := (job.size + 15) / 16 % 256;
      if cmacBlockCount == 0 {
        cmacBlockCount := 1;
      }
      cmacState := Cmac.CalcSubkeys;
    }

    /** cmac_handle_aes_engine_ready up to the command: the block comes from byte loops over buffers. */
    method CmacEngineReady(job: Cmac.Job) returns (block: Block)
      requires Cmac.Calculating(CmacGlobals()) && job.Ok()
      requires cmacState == Cmac.CalcMi ==> 16 * (cmacBlockCurrent + 1) <= job.size
      modifies this`cmacState, this`cmacBlockCurrent
      ensures Cmac.Ready(CmacGlobals(), block) == Cmac.EngineReady(old(CmacGlobals()), job)
    {
      hide Rfc4493.Double, Rfc4493.LastBlock;
      match cmacState {
        case CalcSubkeys =>
          cmacState := Cmac.W4Subkeys;
          block := Zeros(16);
        case CalcMi =>
          block := CmacBlockInput(job);
          cmacBlockCurrent := (cmacBlockCurrent + 1) % 256;
          cmacState := Cmac.W4Mi;
        case CalcMlast =>
          block := CmacLastInput(job);
          cmacBlockCurrent := (cmacBlockCurrent + 1) % 256;
          cmacState := Cmac.W4Mlast;
      }
    }

    method Load(b: Block) returns (a: array<byte>)
      ensures fresh(a) && a.Length == 16 && a[..] == b
    {
      a := new byte[16](i requires 0 <= i < 16 => b[i]);
    }

    method CmacBlockInput(job: Cmac.Job) returns (block: Block)
      requires job.Ok() && 16 * (cmacBlockCurrent + 1) <= job.size
      ensures block == XorBlock(cmacX, job.Text()[16 * cmacBlockCurrent..16 * (cmacBlockCurrent + 1)])
    {
      var x := Load(cmacX);
      var y := new byte[16];
      CmacSoftware.MixMessage(job.data, job.size, cmacBlockCurrent * 16, x, y);
      block := y[..];
    }

    method CmacLastInput(job: Cmac.Job) returns (block: Block)
      requires job.Ok()
      ensures var k1 := Rfc4493.Double(cmacSubkey);
              block == XorBlock(cmacX, Rfc4493.LastBlock(k1, Rfc4493.Double(k1), job.Text()))
    {
      hide Rfc4493.Double, Rfc4493.LastBlock;
      var k0 := Load(cmacSubkey);
      var k1, k2 := new byte[16], new byte[16];
      CmacSoftware.CalcSubkeys(k0, k1, k2);
      var mLast := new byte[16];
      var x := Load(cmacX);
      CmacSoftware.CalcLastBlock(job.data, job.size, k1, k2, mLast);
      var y := new byte[16];
      CmacSoftware.MixBlock(mLast, x, y);
      block := y[..];
    }

    /** The switch inside the scheduler loop. */
    method Dispatch()
      requires HeadOk(mode, Abs())
      modifies this
      ensures Abs() == Tick(mode, E, old(Abs()))
      ensures submitted == old(submitted) && owed == old(owed)
    {
      hide Cmac.EngineReady, Ccm.Issue, Ccm.Absorb, Rfc4493.Cmac;
      var head := operations[0];
      match head {
        case Random(_, _, _) =>
          SendCommand(head, LeRand);
        case Aes128(_, key, plaintext, _) =>
          if mode == Software {
            Complete(head.(ciphertext := E(key, plaintext)));
          } else {
            SendCommand(head, AesStart(key, plaintext));
          }
        case CmacRequest(_, job, _) =>
          if mode == Software {
            var hash := new byte[16];
            CmacSoftware.CmacCalc(E, job.key, job.size, job.data, hash);
            Complete(head.(hash := hash[..]));
          } else {
            if cmacState == Cmac.Idle {
              CmacStart(job);
            }
            var block := CmacEngineReady(job);
            SendCommand(head, AesStart(cmacK, block));
          }
        case CcmRequest(_, c) =>
          Ccm.IssueKeeps(c);
          match Ccm.Issue(c) {
            case Finished(c1) => Complete(head.(ccm := c1));
            case Aes(c1, block) =>
              if mode == Software {
                TakeCcmResult(head.(ccm := c1), E(c1.key, block));
              } else {
                SendCommand(head.(ccm := c1), AesStart(c1.key, block));
              }
          }
      }
    }

    method TakeCcmResult(head: Request, y: Block)
      requires operations != [] && head.CcmRequest? && Ccm.CallOk(head.ccm) && !Ccm.Calculating(head.ccm)
      modifies this`operations, this`completed
      ensures Abs() == CcmResult(old(Abs()), head, y)
    {
      var a := Ccm.Absorb(head.ccm, y);
      if a.done {
        Complete(head.(ccm := a.c));
      } else {
        operations := [head.(ccm := a.c)] + operations[1..];
      }
    }

    /**
     btstack_crypto_run: n iterations, until the queue is empty, a result is awaited, or the
     transport refuses a command. canSend(i) is the transport's answer to the i-th question.
     */
    method Run(working: bool, canSend: nat -> bool) returns (n: nat)
      requires Valid()
      modifies this
      ensures Valid() && submitted == old(submitted) && owed == old(owed)
      ensures ValidRun(mode, E, old(Abs()), Iterates(n)) && Abs() == After(mode, E, old(Abs()), Iterates(n))
      ensures operations == [] || waitForHciResult || !working || !canSend(n)
    {
      hide Invariant, Tick, HeadOk;
      n := 0;
      if !working {
        return;
      }
      while true
        invariant Valid() && submitted == old(submitted) && owed == old(owed)
        invariant ValidRun(mode, E, old(Abs()), Iterates(n)) && Abs() == After(mode, E, old(Abs()), Iterates(n))
        decreases Effort(operations), if waitForHciResult then 0 else 1
      {
        if operations == [] {
          return;
        }
        if waitForHciResult {
          return;
        }
        if !canSend(n) {
          return;
        }
        NeverStuck(mode, E, Abs(), submitted, owed);
        IterateProgress(mode, E, Abs());
        TickKeeps(mode, E, Abs(), submitted, owed);
        OneMore(mode, E, old(Abs()), n);
        Dispatch();
        n := n + 1;
      }
    }

    predicate Queued(id: nat)
      reads this
    {
      exists i :: 0 <= i < |operations| && operations[i].id == id
    }

    /**
     A submitting function: append the request, then run. add_tail refuses a request that is in the
     queue already; its fields must then be the ones it was submitted with.
     */
    method SubmitRequest(r: Request, working: bool, canSend: nat -> bool) returns (n: nat)
      requires Valid() && Ready(r)
      requires forall i :: 0 <= i < |operations| && operations[i].id == r.id ==> operations[i] == r
      modifies this
      ensures Valid() && submitted == if old(Queued(r.id)) then old(submitted) else old(submitted) + [r]
      ensures var e := if old(Queued(r.id)) then old(Abs()) else Step(mode, E, old(Abs()), Submit(r));
              ValidRun(mode, E, e, Iterates(n)) && Abs() == After(mode, E, e, Iterates(n))
    {
      hide Invariant, Results;
      if !Queued(r.id) {
        SubmitKeeps(mode, E, Abs(), submitted, owed, r);
        owed := owed + Results(mode, r);
        operations := operations + [r];
        submitted := submitted + [r];
      }
      n := Run(working, canSend);
    }

    /** btstack_crypto_handle_random_data without its final call of the scheduler. */
    method HandleRandomData(data: seq<byte>)
      modifies this`operations, this`completed
      ensures Abs() == RandomData(old(Abs()), data)
    {
      if operations == [] {
        return;
      }
      if operations[0].Random? {
        var r := operations[0];
        var bytesToCopy := Min(r.size, |data|);
        r := r.(buffer := r.buffer + data[..bytesToCopy], size := r.size - bytesToCopy);
        if r.size == 0 {
          Complete(r);
        } else {
          operations := [r] + operations[1..];
        }
      }
    }

    method HandleEncryptionResult(data: Block)
      modifies this`operations, this`completed, this`cmacState, this`cmacX, this`cmacSubkey
      ensures Abs() == EncryptionResult(old(Abs()), data)
    {
      if operations == [] {
        return;
      }
      var head := operations[0];
      var result: Block := Flip(data);
      match head {
        case Random(_, _, _) =>
        case Aes128(_, _, _, _) => Complete(head.(ciphertext := result));
        case CmacRequest(_, _, _) =>
          match cmacState {
            case W4Subkeys =>
              cmacSubkey := result;
              cmacState := if cmacBlockCurrent < cmacBlockCount - 1 then Cmac.CalcMi else Cmac.CalcMlast;
            case W4Mi =>
              cmacX := result;
              cmacState := if cmacBlockCurrent < cmacBlockCount - 1 then Cmac.CalcMi else Cmac.CalcMlast;
            case W4Mlast =>
              cmacState := Cmac.Idle;
              Complete(head.(hash := result));
            case _ =>
          }
        case CcmRequest(_, c) =>
          if Ccm.CallOk(c) && !Ccm.Calculating(c) {
            TakeCcmResult(head, result);
          }
      }
    }

    /**
     The command-complete events. Without a result awaited they are ignored; otherwise the flag is
     cleared, the head takes the result and the scheduler runs.
     */
    method CommandComplete(event: Event, working: bool, canSend: nat -> bool) returns (n: nat)
      requires Valid() && (event.Encrypted? || event.RandomBytes?)
      requires waitForHciResult ==> Enabled(mode, E, Abs(), event)
      modifies this
      ensures Valid() && submitted == old(submitted)
      ensures !old(waitForHciResult) ==> Abs() == old(Abs()) && owed == old(owed)
      ensures old(waitForHciResult) ==>
                owed == old(owed) - 1
                && var e := Step(mode, E, old(Abs()), event);
                ValidRun(mode, E, e, Iterates(n)) && Abs() == After(mode, E, e, Iterates(n))
    {
      hide Invariant, EncryptionResult, RandomData;
      if !waitForHciResult {
        return 0;
      }
      StepKeeps(mode, E, Abs(), submitted, owed, event);
      assert Answers([event]) == 1 by { assert [event][1..] == []; }
      waitForHciResult := false;
      outstanding := outstanding[1..];
      match event {
        case Encrypted(result) => HandleEncryptionResult(result);
        case RandomBytes(data) => HandleRandomData(data);
      }
      owed := owed - 1;
      n := Run(working, canSend);
    }
  }

  lemma {:induction false} OneMore(mode: Mode, E: Cipher, e: Engine, n: nat)
    requires ValidRun(mode, E, e, Iterates(n)) && Enabled(mode, E, After(mode, E, e, Iterates(n)), Iterate)
    ensures ValidRun(mode, E, e, Iterates(n + 1))
    ensures After(mode, E, e, Iterates(n + 1)) == Step(mode, E, After(mode, E, e, Iterates(n)), Iterate)
    decreases n
  {
    hide Step, Enabled;
    assert Iterates(n + 1)[1..] == Iterates(n);
    if n > 0 {
      assert Iterates(n)[1..] == Iterates(n - 1);
      OneMore(mode, E, Step(mode, E, e, Iterate), n - 1);
    }
  }
}
