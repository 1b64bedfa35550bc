/** The seccomp filter generator of src/security.rs and the classic-BPF machine its output runs on. */
module Seccomp {
  import opened Wrappers

  newtype u8 = x: int | 0 <= x < 0x100
  newtype u16 = x: int | 0 <= x < 0x1_0000
  newtype u32 = x: int | 0 <= x < 0x1_0000_0000

  datatype SockFilter = SockFilter(code: u16, jt: u8, jf: u8, k: u32)

  /** The instruction codes the generator uses: LD|W|ABS, JMP|JEQ|K and RET|K. */
  const LD_W_ABS: u16 := 0x00 + 0x00 + 0x20
  const JMP_JEQ_K: u16 := 0x05 + 0x10 + 0x00
  const RET_K: u16 := 0x06 + 0x00

  const SECCOMP_RET_ALLOW: u32 := 0x7fff_0000
  const SECCOMP_RET_ERRNO: u32 := 0x0005_0000
  const EPERM: u32 := 1
  const RET_EPERM: u32 := SECCOMP_RET_ERRNO + EPERM

  const BLOCKED_SYSCALLS: seq<u32> :=
    [246, 320, 169, 167, 168, 175, 313, 176, 163, 227, 305, 164, 159, 170, 171]

  // ---------- The generator ----------

  /** Rust's `as u8`. */
  function AsU8(n: nat): u8 {
    (n % 0x100) as u8
  }

  /** Rust's `as u16`. */
  function AsU16(n: nat): (r: u16)
    ensures n <= 0xffff ==> r as nat == n
    ensures 0x1_0000 <= n <= 0x1_ffff ==> r as nat == n - 0x1_0000
  {
    (n % 0x1_0000) as u16
  }

  const LOAD: SockFilter := SockFilter(LD_W_ABS, 0, 0, 0)
  const ALLOW: SockFilter := SockFilter(RET_K, 0, 0, SECCOMP_RET_ALLOW)
  const DENY: SockFilter := SockFilter(RET_K, 0, 0, RET_EPERM)

  /** The comparison for the `k`-th of the blocked syscalls. */
  function Check(blocked: seq<u32>, k: nat): SockFilter
    requires k < |blocked|
  {
    SockFilter(JMP_JEQ_K, AsU8(|blocked| - k), 0, blocked[k])
  }

  /** `filter` has the layout the generator is meant to produce. */
  predicate IsFilterFor(filter: seq<SockFilter>, blocked: seq<u32>) {
    var n := |blocked|;
    && |filter| == n + 3
    && filter[0] == LOAD
    && (forall k :: 0 <= k < n ==> filter[k + 1] == Check(blocked, k))
    && filter[n + 1] == ALLOW
    && filter[n + 2] == DENY
  }

  // ---------- The machine ----------

  datatype Outcome = Returned(action: u32) | OutOfBounds | BadInstruction

  /** Runs `filter` from `pc` with accumulator `acc`, on the data of a call to syscall `nr`.
      Jumps only go forwards, so every program stops. Only word 0 of the data, `nr`, is loaded. */
  function Exec(filter: seq<SockFilter>, nr: u32, pc: nat, acc: u32): Outcome
    decreases |filter| - pc
  {
    if pc >= |filter| then OutOfBounds
    else
      var i := filter[pc];
      if i.code == LD_W_ABS then
        if i.k == 0 then Exec(filter, nr, pc + 1, nr) else BadInstruction
      else if i.code == JMP_JEQ_K then
        Exec(filter, nr, pc + 1 + (if acc == i.k then i.jt else i.jf) as nat, acc)
      else if i.code == RET_K then Returned(i.k)
      else BadInstruction
  }

  /** The kernel's load check: a size from 1 to BPF_MAXINSNS, known codes, jumps that stay inside,
      and a return as the last instruction. */
  const BPF_MAXINSNS: nat := 4096

  predicate KernelAccepts(filter: seq<SockFilter>) {
    && 1 <= |filter| <= BPF_MAXINSNS
    && (forall pc :: 0 <= pc < |filter| ==>
         var i := filter[pc];
         || i.code == RET_K
         || (i.code == LD_W_ABS && i.k == 0)
         || (i.code == JMP_JEQ_K && pc + 1 + i.jt as nat < |filter| && pc + 1 + i.jf as nat < |filter|))
    && filter[|filter| - 1].code == RET_K
  }

  /** What the kernel runs: the first `len` instructions, where `len` is the program length as a u16. */
  function Install(filter: seq<SockFilter>): Option<seq<SockFilter>> {
    var len := AsU16(|filter|) as nat;
    if KernelAccepts(filter[..len]) then Some(filter[..len]) else None
  }

  // ---------- What a generated program decides ----------

  /** A jump offset holds at most 255, so only the last 255 checks can reach the deny instruction. */
  function Effective(blocked: seq<u32>): seq<u32> {
    if |blocked| <= 255 then blocked else blocked[|blocked| - 255..]
  }

  /** From check `k` on: denied if and only if `nr` is among the effective entries not yet passed. */
  lemma {:induction false} ExecFromCheck(filter: seq<SockFilter>, blocked: seq<u32>, nr: u32, k: nat)
    requires IsFilterFor(filter, blocked) && k <= |blocked|
    ensures var first := if |blocked| - k <= 255 then k else |blocked| - 255;
      Exec(filter, nr, k + 1, nr) == Returned(if nr in blocked[first..] then RET_EPERM else SECCOMP_RET_ALLOW)
    decreases |blocked| - k
  {
    var n := |blocked|;
    if k < n {
      assert filter[k + 1] == Check(blocked, k);
      if blocked[k] != nr {
        ExecFromCheck(filter, blocked, nr, k + 1);
        assert n - k <= 255 ==> blocked[k..] == [blocked[k]] + blocked[k + 1..];
      } else if n - k <= 255 {
        assert blocked[k..][0] == nr;
        assert filter[n + 2] == DENY;
        assert k + 2 + (n - k) == n + 2;
      } else {
        // The offset wrapped: the jump lands on a check, never past the first effective one.
        var landing := k + 1 + AsU8(n - k) as nat;
        assert n - k == 256 * ((n - k) / 256) + (n - k) % 256;
        assert landing <= n - 255;
        ExecFromCheck(filter, blocked, nr, landing);
      }
    }
  }

  /** A generated program stops inside its bounds and denies exactly the effective entries. */
  lemma FilterDecides(filter: seq<SockFilter>, blocked: seq<u32>, nr: u32)
    requires IsFilterFor(filter, blocked)
    ensures Exec(filter, nr, 0, 0) == Returned(if nr in Effective(blocked) then RET_EPERM else SECCOMP_RET_ALLOW)
  {
    ExecFromCheck(filter, blocked, nr, 0);
    assert blocked[0..] == blocked;
  }

  ghost predicate Correct(filter: seq<SockFilter>, blocked: seq<u32>) {
    forall nr :: Exec(filter, nr, 0, 0) == Returned(if nr in blocked then RET_EPERM else SECCOMP_RET_ALLOW)
  }

  /** The program denies the list if and only if every entry also stands among the last 255.
      In particular every list of up to 255 entries is denied. */
  lemma CorrectExactly(filter: seq<SockFilter>, blocked: seq<u32>)
    requires IsFilterFor(filter, blocked)
    ensures Correct(filter, blocked) <==> forall nr :: nr in blocked ==> nr in Effective(blocked)
    ensures |blocked| <= 255 ==> Correct(filter, blocked)
  {
    assert RET_EPERM != SECCOMP_RET_ALLOW;
    forall nr: u32
      ensures Exec(filter, nr, 0, 0) == Returned(if nr in Effective(blocked) then RET_EPERM else SECCOMP_RET_ALLOW)
    {
      FilterDecides(filter, blocked, nr);
    }
    assert forall nr :: nr in Effective(blocked) ==> nr in blocked;
    if Correct(filter, blocked) {
      forall nr | nr in blocked
        ensures nr in Effective(blocked)
      {
        assert Exec(filter, nr, 0, 0) == Returned(RET_EPERM);
      }
    }
  }

  /** 255 is the exact bound: with one entry more, the first, unless repeated, is let through. */
  lemma FirstOf256Escapes(filter: seq<SockFilter>, blocked: seq<u32>)
    requires IsFilterFor(filter, blocked) && |blocked| == 256
    requires blocked[0] !in blocked[1..]
    ensures Exec(filter, blocked[0], 0, 0) == Returned(SECCOMP_RET_ALLOW)
  {
    FilterDecides(filter, blocked, blocked[0]);
  }

  /** The kernel loads a generated program, whole, if and only if the list has at most 4093 entries. */
  lemma InstalledExactly(filter: seq<SockFilter>, blocked: seq<u32>)
    requires IsFilterFor(filter, blocked)
    ensures Install(filter) == if |blocked| <= 4093 then Some(filter) else None
  {
    var n := |blocked|;
    var len := AsU16(|filter|) as nat;
    if n <= BPF_MAXINSNS - 3 {
      assert filter[..len] == filter;
      forall pc | 0 <= pc < |filter| && filter[pc].code == JMP_JEQ_K
        ensures pc + 1 + filter[pc].jt as nat < |filter| && filter[pc].jf == 0
      {
        assert filter[(pc - 1) + 1] == Check(blocked, pc - 1);
      }
      forall pc | 0 <= pc < |filter|
        ensures filter[pc].code == RET_K || filter[pc] == LOAD || filter[pc].code == JMP_JEQ_K
      {
        assert 1 <= pc <= n ==> filter[(pc - 1) + 1] == Check(blocked, pc - 1);
      }
    } else if 1 <= len <= BPF_MAXINSNS {
      assert filter[..len][len - 1] == filter[len - 1];
      if len > 1 {
        assert filter[(len - 2) + 1] == Check(blocked, len - 2);
      }
    }
  }

  method BuildFilter(blocked: seq<u32>) returns (filter: seq<SockFilter>)
    ensures IsFilterFor(filter, blocked)
    ensures |filter| == |blocked| + 3 && filter[0] == SockFilter(0x20, 0, 0, 0)
    ensures forall k :: 0 <= k < |blocked| ==>
      filter[k + 1] == SockFilter(0x15, ((|blocked| - k) % 256) as u8, 0, blocked[k])
    ensures filter[|blocked| + 1] == SockFilter(0x06, 0, 0, 0x7fff_0000)
    ensures filter[|blocked| + 2] == SockFilter(0x06, 0, 0, 0x0005_0001)
  {
    var numBlocked := |blocked|;
    filter := [SockFilter(LD_W_ABS, 0, 0, 0)];
    for k := 0 to numBlocked
      invariant |filter| == k + 1 && filter[0] == LOAD
      invariant forall j :: 0 <= j < k ==> filter[j + 1] == Check(blocked, j)
    {
      var jumpToDeny := AsU8(numBlocked - k);
      filter := filter + [SockFilter(JMP_JEQ_K, jumpToDeny, 0, blocked[k])];
    }
    filter := filter + [SockFilter(RET_K, 0, 0, SECCOMP_RET_ALLOW)];
    filter := filter + [SockFilter(RET_K, 0, 0, SECCOMP_RET_ERRNO + EPERM)];
    forall k | 0 <= k < |blocked|
      ensures filter[k + 1] == SockFilter(0x15, ((|blocked| - k) % 256) as u8, 0, blocked[k])
    {
      assert filter[k + 1] == Check(blocked, k);
    }
  }

  /** The filter containers get: it loads, and denies the fifteen blocked calls and no other. */
  method ApplySeccompFilter() returns (loaded: Option<seq<SockFilter>>)
    ensures loaded.Some? && Correct(loaded.value, BLOCKED_SYSCALLS)
    ensures var denied := {246, 320, 169, 167, 168, 175, 313, 176, 163, 227, 305, 164, 159, 170, 171};
      forall nr :: Exec(loaded.value, nr, 0, 0) == Returned(if nr in denied then 0x0005_0001 else 0x7fff_0000)
  {
    var filter := BuildFilter(BLOCKED_SYSCALLS);
    CorrectExactly(filter, BLOCKED_SYSCALLS);
    InstalledExactly(filter, BLOCKED_SYSCALLS);
    loaded := Install(filter);
  }
}
