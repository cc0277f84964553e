/** The seccomp compiler (seccomp.rs): an allowlist becomes classic BPF with 8-bit relative jumps. */
module Seccomp {
  import opened Prelude

  datatype Syscall =
    | Read | Write | OpenFile | Close | Stat | Fstat | Poll | Mmap | Mprotect | Brk | Ioctl | Access | Pipe | Select
    | SchedYield | Dup | Dup2 | Getpid | Socket | Connect | Accept | Sendto | Recvfrom | Bind | Listen | Clone | Fork
    | Execve | Exit | Fcntl | Getdents | Getcwd | Chdir | Mkdir | Rmdir | Unlink | Chmod | Chown | Ptrace | Getuid
    | Syslog | Setuid | Mount | Reboot | Kexec | ExitGroup | Openat

  /** x86_64 syscall numbers. */
  function Nr(s: Syscall): (nr: nat)
    ensures nr <= 257
  {
    match s
    case Read => 0 case Write => 1 case OpenFile => 2 case Close => 3 case Stat => 4 case Fstat => 5 case Poll => 7
    case Mmap => 9 case Mprotect => 10 case Brk => 12 case Ioctl => 16 case Access => 21 case Pipe => 22 case Select => 23
    case SchedYield => 24 case Dup => 32 case Dup2 => 33 case Getpid => 39 case Socket => 41 case Connect => 42
    case Accept => 43 case Sendto => 44 case Recvfrom => 45 case Bind => 49 case Listen => 50 case Clone => 56
    case Fork => 57 case Execve => 59 case Exit => 60 case Fcntl => 72 case Getdents => 78 case Getcwd => 79
    case Chdir => 80 case Mkdir => 83 case Rmdir => 84 case Unlink => 87 case Chmod => 90 case Chown => 92
    case Ptrace => 101 case Getuid => 102 case Syslog => 103 case Setuid => 105 case Mount => 165 case Reboot => 169
    case Kexec => 246 case ExitGroup => 231 case Openat => 257
  }

  /** The number table, in four stretches. */
  function FromNr(nr: nat): Option<Syscall>
  {
    if nr < 24 then CallBelow24(nr) else if nr < 60 then CallBelow60(nr)
    else if nr < 100 then CallBelow100(nr) else CallFrom100(nr)
  }

  function CallBelow24(nr: nat): Option<Syscall>
  {
    match nr
    case 0 => Some(Read) case 1 => Some(Write) case 2 => Some(OpenFile) case 3 => Some(Close) case 4 => Some(Stat)
    case 5 => Some(Fstat) case 7 => Some(Poll) case 9 => Some(Mmap) case 10 => Some(Mprotect) case 12 => Some(Brk)
    case 16 => Some(Ioctl) case 21 => Some(Access) case 22 => Some(Pipe) case 23 => Some(Select)
    case _ => None
  }

  function CallBelow60(nr: nat): Option<Syscall>
  {
    match nr
    case 24 => Some(SchedYield) case 32 => Some(Dup) case 33 => Some(Dup2) case 39 => Some(Getpid)
    case 41 => Some(Socket) case 42 => Some(Connect) case 43 => Some(Accept) case 44 => Some(Sendto)
    case 45 => Some(Recvfrom) case 49 => Some(Bind) case 50 => Some(Listen) case 56 => Some(Clone) case 57 => Some(Fork)
    case 59 => Some(Execve)
    case _ => None
  }

  function CallBelow100(nr: nat): Option<Syscall>
  {
    match nr
    case 60 => Some(Exit) case 72 => Some(Fcntl) case 78 => Some(Getdents)
    case 79 => Some(Getcwd) case 80 => Some(Chdir) case 83 => Some(Mkdir) case 84 => Some(Rmdir) case 87 => Some(Unlink)
    case 90 => Some(Chmod) case 92 => Some(Chown)
    case _ => None
  }

  function CallFrom100(nr: nat): Option<Syscall>
  {
    match nr
    case 101 => Some(Ptrace) case 102 => Some(Getuid)
    case 103 => Some(Syslog) case 105 => Some(Setuid) case 165 => Some(Mount) case 169 => Some(Reboot)
    case 246 => Some(Kexec) case 231 => Some(ExitGroup) case 257 => Some(Openat)
    case _ => None
  }

  lemma CallHasItsNumber(s: Syscall)
    ensures FromNr(Nr(s)) == Some(s)
  {
    var nr := Nr(s);
    if nr < 24 {
      hide CallBelow60, CallBelow100, CallFrom100;
      assert CallBelow24(nr) == Some(s);
    } else if nr < 60 {
      hide CallBelow24, CallBelow100, CallFrom100;
      assert CallBelow60(nr) == Some(s);
    } else if nr < 100 {
      hide CallBelow24, CallBelow60, CallFrom100;
      assert CallBelow100(nr) == Some(s);
    } else {
      hide CallBelow24, CallBelow60, CallBelow100;
      assert CallFrom100(nr) == Some(s);
    }
  }

  lemma NumberBelow24(nr: nat)
    ensures CallBelow24(nr).Some? ==> Nr(CallBelow24(nr).value) == nr
  {
  }

  lemma NumberBelow60(nr: nat)
    ensures CallBelow60(nr).Some? ==> Nr(CallBelow60(nr).value) == nr
  {
  }

  lemma NumberBelow100(nr: nat)
    ensures CallBelow100(nr).Some? ==> Nr(CallBelow100(nr).value) == nr
  {
  }

  lemma NumberFrom100(nr: nat)
    ensures CallFrom100(nr).Some? ==> Nr(CallFrom100(nr).value) == nr
  {
  }

  lemma NumberOfFoundCall(nr: nat)
    ensures FromNr(nr).Some? ==> Nr(FromNr(nr).value) == nr
  {
    hide Nr, CallBelow24, CallBelow60, CallBelow100, CallFrom100;
    NumberBelow24(nr);
    NumberBelow60(nr);
    NumberBelow100(nr);
    NumberFrom100(nr);
  }

  /** The two tables are inverse, so a number names at most one call. */
  lemma NumbersNameCalls(s: Syscall, nr: nat)
    ensures FromNr(nr) == Some(s) <==> Nr(s) == nr
  {
    hide Nr, FromNr;
    CallHasItsNumber(s);
    NumberOfFoundCall(nr);
  }

  // ---------------------------------------------------------------- classic BPF

  datatype Insn = Insn(code: nat, jt: nat, jf: nat, k: nat)

  const LD_W_ABS: nat := 0x20
  const JMP_JEQ_K: nat := 0x15
  const RET_K: nat := 0x06
  const RET_KILL_THREAD: nat := 0x0000_0000
  const RET_ALLOW: nat := 0x7FFF_0000
  const DATA_NR: nat := 0
  const DATA_ARCH: nat := 4
  const AUDIT_ARCH_X86_64: nat := 0xC000_003E

  datatype Outcome = Returned(k: nat) | LeftProgram | BadInstruction

  /** The kernel's interpreter, on the fragment the compiler emits. Jumps are relative and forward. */
  function Exec(prog: seq<Insn>, pc: nat, acc: nat, arch: nat, nr: nat): Outcome
    decreases |prog| - pc
  {
    if pc >= |prog| then LeftProgram
    else
      var insn := prog[pc];
      if insn.code == LD_W_ABS then
        if insn.k == DATA_NR then Exec(prog, pc + 1, nr, arch, nr)
        else if insn.k == DATA_ARCH then Exec(prog, pc + 1, arch, arch, nr)
        else BadInstruction
      else if insn.code == JMP_JEQ_K then
        Exec(prog, pc + 1 + (if acc == insn.k then insn.jt else insn.jf), acc, arch, nr)
      else if insn.code == RET_K then Returned(insn.k)
      else BadInstruction
  }

  // ---------------------------------------------------------------- code generation

  /** The source's cast to u8. */
  function U8(n: nat): (b: nat)
    ensures b < 256
  {
    n % 256
  }

  /** The comparison for the i-th allowed call: a match jumps over the remaining comparisons and the KILL. */
  function Comparison(allowed: seq<Syscall>, i: nat): Insn
    requires i < |allowed|
  {
    Insn(JMP_JEQ_K, U8(|allowed| - i), 0, Nr(allowed[i]))
  }

  function Comparisons(allowed: seq<Syscall>): (cs: seq<Insn>)
    ensures |cs| == |allowed| && forall i | 0 <= i < |allowed| :: cs[i] == Comparison(allowed, i)
  {
    seq(|allowed|, i requires 0 <= i < |allowed| => Comparison(allowed, i))
  }

  function Program(allowed: seq<Syscall>): (prog: seq<Insn>)
    ensures |prog| == |allowed| + 5
  {
    [Insn(LD_W_ABS, 0, 0, DATA_ARCH),
     Insn(JMP_JEQ_K, 0, U8(|allowed| + 1), AUDIT_ARCH_X86_64),
     Insn(LD_W_ABS, 0, 0, DATA_NR)]
    + Comparisons(allowed)
    + [Insn(RET_K, 0, 0, RET_KILL_THREAD), Insn(RET_K, 0, 0, RET_ALLOW)]
  }

  lemma ProgramLayout(allowed: seq<Syscall>)
    ensures var p := Program(allowed);
            var n := |allowed|;
            && p[0] == Insn(LD_W_ABS, 0, 0, DATA_ARCH)
            && p[1] == Insn(JMP_JEQ_K, 0, U8(n + 1), AUDIT_ARCH_X86_64)
            && p[2] == Insn(LD_W_ABS, 0, 0, DATA_NR)
            && (forall i | 0 <= i < n :: p[3 + i] == Comparison(allowed, i))
            && p[3 + n] == Insn(RET_K, 0, 0, RET_KILL_THREAD)
            && p[4 + n] == Insn(RET_K, 0, 0, RET_ALLOW)
  {
  }

  method GenerateBpf(allowed: seq<Syscall>) returns (insns: seq<Insn>)
    ensures insns == Program(allowed)
  {
    insns := [Insn(LD_W_ABS, 0, 0, DATA_ARCH)];
    var killOffset := (|allowed| + 1) % 256;
    insns := insns + [Insn(JMP_JEQ_K, 0, Min(killOffset, 255), AUDIT_ARCH_X86_64)];
    insns := insns + [Insn(LD_W_ABS, 0, 0, DATA_NR)];
    ghost var preamble := insns;
    for i := 0 to |allowed|
      invariant insns == preamble + Comparisons(allowed)[..i]
    {
      var remaining := |allowed| - i - 1;
      insns := insns + [Insn(JMP_JEQ_K, (remaining + 1) % 256, 0, Nr(allowed[i]))];
      assert Comparisons(allowed)[..i + 1] == Comparisons(allowed)[..i] + [Comparisons(allowed)[i]];
    }
    assert Comparisons(allowed)[..|allowed|] == Comparisons(allowed);
    insns := insns + [Insn(RET_K, 0, 0, RET_KILL_THREAD)];
    insns := insns + [Insn(RET_K, 0, 0, RET_ALLOW)];
  }

  // ---------------------------------------------------------------- correctness

  predicate Lists(allowed: seq<Syscall>, nr: nat)
  {
    exists s | s in allowed :: Nr(s) == nr
  }

  function Verdict(allowed: seq<Syscall>, arch: nat, nr: nat): Outcome
  {
    Returned(if arch == AUDIT_ARCH_X86_64 && Lists(allowed, nr) then RET_ALLOW else RET_KILL_THREAD)
  }

  lemma EndsOfProgram(allowed: seq<Syscall>, acc: nat, arch: nat, nr: nat)
    ensures Exec(Program(allowed), 3 + |allowed|, acc, arch, nr) == Returned(RET_KILL_THREAD)
    ensures Exec(Program(allowed), 4 + |allowed|, acc, arch, nr) == Returned(RET_ALLOW)
  {
    hide Program;
    ProgramLayout(allowed);
  }

  /** One comparison: jump past the rest on a match, fall through otherwise. */
  lemma ComparisonStep(allowed: seq<Syscall>, i: nat, acc: nat, arch: nat, nr: nat)
    requires i < |allowed|
    ensures Exec(Program(allowed), 3 + i, acc, arch, nr)
            == Exec(Program(allowed), 4 + i + (if acc == Nr(allowed[i]) then U8(|allowed| - i) else 0), acc, arch, nr)
  {
    hide Program;
    ProgramLayout(allowed);
    assert Program(allowed)[3 + i] == Comparison(allowed, i);
  }

  /** From the i-th comparison on, a short program allows exactly the calls still to come. */
  lemma {:induction false} ScanFrom(allowed: seq<Syscall>, i: nat, acc: nat, arch: nat, nr: nat)
    requires |allowed| <= 254 && i <= |allowed|
    ensures Exec(Program(allowed), 3 + i, acc, arch, nr)
            == Returned(if exists j :: i <= j < |allowed| && Nr(allowed[j]) == acc then RET_ALLOW else RET_KILL_THREAD)
    decreases |allowed| - i
  {
    hide Exec, Program, Nr;
    EndsOfProgram(allowed, acc, arch, nr);
    if i < |allowed| {
      ComparisonStep(allowed, i, acc, arch, nr);
      if acc != Nr(allowed[i]) {
        ScanFrom(allowed, i + 1, acc, arch, nr);
      }
    }
  }

  /** The preamble: a foreign architecture takes the kill jump, x86_64 goes on to compare the call number. */
  lemma PreambleStep(allowed: seq<Syscall>, arch: nat, nr: nat)
    ensures Exec(Program(allowed), 0, 0, arch, nr)
            == if arch == AUDIT_ARCH_X86_64 then Exec(Program(allowed), 3, nr, arch, nr)
               else Exec(Program(allowed), 2 + U8(|allowed| + 1), arch, arch, nr)
    ensures Exec(Program(allowed), 2, arch, arch, nr) == Exec(Program(allowed), 3, nr, arch, nr)
  {
    hide Program;
    ProgramLayout(allowed);
    var p := Program(allowed);
    assert Exec(p, 0, 0, arch, nr) == Exec(p, 1, arch, arch, nr);
    assert Exec(p, 2, arch, arch, nr) == Exec(p, 3, nr, arch, nr);
  }

  lemma ShortProgramsAreCorrect(allowed: seq<Syscall>, arch: nat, nr: nat)
    requires |allowed| <= 254
    ensures Exec(Program(allowed), 0, 0, arch, nr) == Verdict(allowed, arch, nr)
  {
    hide Exec, Program, Nr;
    PreambleStep(allowed, arch, nr);
    if arch == AUDIT_ARCH_X86_64 {
      ScanFrom(allowed, 0, nr, arch, nr);
      if Lists(allowed, nr) {
        var s :| s in allowed && Nr(s) == nr;
        var j :| 0 <= j < |allowed| && allowed[j] == s;
        assert Nr(allowed[j]) == nr;
      } else {
        assert forall j | 0 <= j < |allowed| :: allowed[j] in allowed;
      }
    } else {
      EndsOfProgram(allowed, arch, arch, nr);
      assert U8(|allowed| + 1) == |allowed| + 1;
    }
  }

  /** In a program of any length, the number of the last listed call reaches ALLOW from every comparison. */
  lemma {:induction false} LastCallReachesAllow(allowed: seq<Syscall>, i: nat, acc: nat, arch: nat, nr: nat)
    requires i < |allowed| && acc == Nr(allowed[|allowed| - 1])
    ensures Exec(Program(allowed), 3 + i, acc, arch, nr) == Returned(RET_ALLOW)
    decreases |allowed| - i
  {
    hide Exec, Program, Nr;
    ComparisonStep(allowed, i, acc, arch, nr);
    var left := |allowed| - i;
    if acc != Nr(allowed[i]) {
      LastCallReachesAllow(allowed, i + 1, acc, arch, nr);
    } else if left < 256 {
      EndsOfProgram(allowed, acc, arch, nr);
    } else {
      assert left == 256 * (left / 256) + U8(left);
      LastCallReachesAllow(allowed, i + 1 + U8(left), acc, arch, nr);
    }
  }

  /** From 255 calls on the kill jump wraps, and some foreign-architecture call is allowed. */
  lemma LongProgramsLetAForeignCallThrough(allowed: seq<Syscall>) returns (arch: nat, nr: nat)
    requires |allowed| >= 255
    ensures arch != AUDIT_ARCH_X86_64
    ensures Exec(Program(allowed), 0, 0, arch, nr) == Returned(RET_ALLOW)
    ensures Exec(Program(allowed), 0, 0, arch, nr) != Verdict(allowed, arch, nr)
  {
    hide Exec, Program;
    var last := Nr(allowed[|allowed| - 1]);
    arch, nr := last, last;
    PreambleStep(allowed, arch, nr);
    var jump := U8(|allowed| + 1);
    if jump == 0 {
      LastCallReachesAllow(allowed, 0, nr, arch, nr);
    } else {
      LastCallReachesAllow(allowed, jump - 1, arch, arch, nr);
    }
  }

  /** Compiler correctness: the generated filter gives the intended verdict on every architecture and call
      number exactly when the allowlist has at most 254 entries. */
  lemma FilterIsCorrectIff(allowed: seq<Syscall>)
    ensures (forall arch: nat, nr: nat :: Exec(Program(allowed), 0, 0, arch, nr) == Verdict(allowed, arch, nr))
            <==> |allowed| <= 254
  {
    hide Exec, Program, Verdict;
    if |allowed| <= 254 {
      forall arch: nat, nr: nat ensures Exec(Program(allowed), 0, 0, arch, nr) == Verdict(allowed, arch, nr) {
        ShortProgramsAreCorrect(allowed, arch, nr);
      }
    } else {
      var arch, nr := LongProgramsLetAForeignCallThrough(allowed);
    }
  }

  // ---------------------------------------------------------------- intents

  const BASE_ALLOWED: seq<Syscall> :=
    [Read, Write, Close, Fstat, Brk, Mprotect, Exit, ExitGroup, Getcwd, Access, Fcntl, Dup, Dup2, SchedYield, Getuid, Getpid]

  const ALWAYS_DENIED: seq<Syscall> := [Ptrace, Mount, Reboot, Kexec, Syslog, Setuid]

  predicate StartsWith(s: string, prefix: string)
  {
    prefix <= s
  }

  /** The arms of the intent table, in the order they are tried. */
  datatype IntentClass =
    | CodeExecute | FileScan | Shell | Http | Tls | Db | Dns | Ai | MediaCall | Calculation | Data | Metrics | MuxNative | Unknown

  function ClassOf(intent: string): IntentClass
  {
    if intent == "code:execute" then CodeExecute
    else if intent == "file:scan" then FileScan
    else if StartsWith(intent, "shell:") then Shell
    else if StartsWith(intent, "http:") then Http
    else if StartsWith(intent, "tls:") then Tls
    else if StartsWith(intent, "db:") then Db
    else if StartsWith(intent, "dns:") then Dns
    else if StartsWith(intent, "ai:") then Ai
    else if StartsWith(intent, "call:") then MediaCall
    else if intent == "math_calculation" then Calculation
    else if StartsWith(intent, "data:") then Data
    else if StartsWith(intent, "metrics:") then Metrics
    else if intent == "mux:native" then MuxNative
    else Unknown
  }

  function CallsOf(c: IntentClass): (extra: seq<Syscall>)
    ensures |extra| <= 13
    ensures forall s | s in extra :: s !in ALWAYS_DENIED
  {
    match c
    case CodeExecute => [OpenFile, Openat, Stat, Mmap, Pipe, Select]
    case FileScan => [OpenFile, Openat, Stat, Getdents]
    case Shell => [OpenFile, Openat, Stat, Ioctl, Pipe, Select, Poll]
    case Http => [OpenFile, Openat, Stat, Socket, Connect, Bind, Listen, Accept, Sendto, Recvfrom, Mmap, Poll, Select]
    case Tls => [OpenFile, Openat, Stat, Socket, Connect, Sendto, Recvfrom, Mmap]
    case Db => [OpenFile, Openat, Stat, Socket, Connect, Sendto, Recvfrom, Poll, Select]
    case Dns => [Socket, Sendto, Recvfrom]
    case Ai => [OpenFile, Openat, Stat, Socket, Connect, Sendto, Recvfrom, Mmap, Poll]
    case MediaCall => [Socket, Connect, Bind, Sendto, Recvfrom, Ioctl, Mmap, Poll]
    case Calculation => [Mmap]
    case Data => [OpenFile, Openat, Stat, Mmap]
    case Metrics => [OpenFile, Stat, Socket, Sendto]
    case MuxNative => [OpenFile, Openat, Stat, Socket, Sendto, Recvfrom]
    case Unknown => []
  }

  function Extra(intent: string): (extra: seq<Syscall>)
    ensures |extra| <= 13
    ensures forall s | s in extra :: s !in ALWAYS_DENIED
  {
    CallsOf(ClassOf(intent))
  }

  /** The base list, then each extra call that is not there yet. */
  function Merge(base: seq<Syscall>, extra: seq<Syscall>): (all: seq<Syscall>)
    ensures |base| <= |all| <= |base| + |extra|
    ensures forall s :: s in all <==> s in base || s in extra
  {
    if extra == [] then base
    else
      var all := Merge(base, extra[..|extra| - 1]);
      var s := extra[|extra| - 1];
      assert extra == extra[..|extra| - 1] + [s];
      if s in all then all else all + [s]
  }

  function Allowed(intent: string): seq<Syscall>
  {
    Merge(BASE_ALLOWED, Extra(intent))
  }

  datatype SeccompFilter = SeccompFilter(intent: string, instructions: seq<Insn>, allowed: seq<Syscall>, denied: seq<Syscall>)

  method CompileFilter(intent: string) returns (f: SeccompFilter)
    ensures f == SeccompFilter(intent, Program(Allowed(intent)), Allowed(intent), ALWAYS_DENIED)
  {
    hide Program;
    var allowed := BASE_ALLOWED;
    var extra := Extra(intent);
    for i := 0 to |extra|
      invariant allowed == Merge(BASE_ALLOWED, extra[..i])
    {
      assert extra[..i + 1][..i] == extra[..i];
      if extra[i] !in allowed {
        allowed := allowed + [extra[i]];
      }
    }
    assert extra[..|extra|] == extra;
    var insns := GenerateBpf(allowed);
    f := SeccompFilter(intent, insns, allowed, ALWAYS_DENIED);
  }

  /** The simulation's own check: never-allowed calls first, then the list. */
  predicate ValidateSyscall(allowed: seq<Syscall>, nr: nat)
  {
    !(FromNr(nr).Some? && FromNr(nr).value in ALWAYS_DENIED) && Lists(allowed, nr)
  }

  lemma NothingDeniedIsAllowed(intent: string)
    ensures |Allowed(intent)| <= 254
    ensures forall s | s in Allowed(intent) :: s !in ALWAYS_DENIED
  {
    hide Extra, Merge;
    forall s | s in Allowed(intent) ensures s !in ALWAYS_DENIED {
      if s in BASE_ALLOWED {
        BaseIsNotDenied(s);
      }
    }
  }

  lemma BaseIsNotDenied(s: Syscall)
    requires s in BASE_ALLOWED
    ensures s !in ALWAYS_DENIED
  {
  }

  /** For every intent the compiled filter and the simulation agree on every x86_64 call, and nothing passes elsewhere. */
  lemma KernelAgreesWithSimulation(intent: string, arch: nat, nr: nat)
    ensures Exec(Program(Allowed(intent)), 0, 0, arch, nr)
            == Returned(if arch == AUDIT_ARCH_X86_64 && ValidateSyscall(Allowed(intent), nr) then RET_ALLOW else RET_KILL_THREAD)
  {
    hide Exec, Program, Allowed;
    NothingDeniedIsAllowed(intent);
    ShortProgramsAreCorrect(Allowed(intent), arch, nr);
    if Lists(Allowed(intent), nr) {
      var s :| s in Allowed(intent) && Nr(s) == nr;
      NumbersNameCalls(s, nr);
    }
  }

  function ValidateSequence(allowed: seq<Syscall>, nrs: seq<nat>): seq<nat>
  {
    if nrs == [] then []
    else
      var rest := ValidateSequence(allowed, nrs[..|nrs| - 1]);
      var nr := nrs[|nrs| - 1];
      if ValidateSyscall(allowed, nr) then rest else rest + [nr]
  }

  /** The simulation reports a sequence clean exactly when the kernel would let every call of it run. */
  lemma {:induction false} CleanSequenceIff(intent: string, nrs: seq<nat>)
    ensures ValidateSequence(Allowed(intent), nrs) == [] <==>
            forall k | 0 <= k < |nrs| ::
              Exec(Program(Allowed(intent)), 0, 0, AUDIT_ARCH_X86_64, nrs[k]) == Returned(RET_ALLOW)
  {
    hide Exec, Program, Allowed, ValidateSyscall;
    if nrs != [] {
      var before := nrs[..|nrs| - 1];
      CleanSequenceIff(intent, before);
      KernelAgreesWithSimulation(intent, AUDIT_ARCH_X86_64, nrs[|nrs| - 1]);
      assert forall k | 0 <= k < |before| :: nrs[k] == before[k];
    }
  }

  // ---------------------------------------------------------------- the policy, call by call

  /** The calls every intent may use: reading, writing and closing, memory break and protection, leaving, and asking about
      itself. */
  predicate IsBase(s: Syscall)
  {
    || s.Read? || s.Write? || s.Close? || s.Fstat? || s.Brk? || s.Mprotect? || s.Exit? || s.ExitGroup? || s.Getcwd?
    || s.Access? || s.Fcntl? || s.Dup? || s.Dup2? || s.SchedYield? || s.Getuid? || s.Getpid?
  }

  /** Who may use which further call. */
  predicate MayUse(c: IntentClass, s: Syscall)
  {
    match s
    case OpenFile => c.CodeExecute? || c.FileScan? || c.Shell? || c.Http? || c.Tls? || c.Db? || c.Ai? || c.Data? || c.Metrics? || c.MuxNative?
    case Stat => c.CodeExecute? || c.FileScan? || c.Shell? || c.Http? || c.Tls? || c.Db? || c.Ai? || c.Data? || c.Metrics? || c.MuxNative?
    case Poll => c.Shell? || c.Http? || c.Db? || c.Ai? || c.MediaCall?
    case Mmap => c.CodeExecute? || c.Http? || c.Tls? || c.Ai? || c.MediaCall? || c.Calculation? || c.Data?
    case Ioctl => c.Shell? || c.MediaCall?
    case Pipe => c.CodeExecute? || c.Shell?
    case Select => c.CodeExecute? || c.Shell? || c.Http? || c.Db?
    case Socket => c.Http? || c.Tls? || c.Db? || c.Dns? || c.Ai? || c.MediaCall? || c.Metrics? || c.MuxNative?
    case Connect => c.Http? || c.Tls? || c.Db? || c.Ai? || c.MediaCall?
    case Accept => c.Http?
    case Sendto => c.Http? || c.Tls? || c.Db? || c.Dns? || c.Ai? || c.MediaCall? || c.Metrics? || c.MuxNative?
    case Recvfrom => c.Http? || c.Tls? || c.Db? || c.Dns? || c.Ai? || c.MediaCall? || c.MuxNative?
    case Bind => c.Http? || c.MediaCall?
    case Listen => c.Http?
    case Getdents => c.FileScan?
    case Openat => c.CodeExecute? || c.FileScan? || c.Shell? || c.Http? || c.Tls? || c.Db? || c.Ai? || c.Data? || c.MuxNative?
    case _ => false
  }

  lemma CodeExecuteCalls(s: Syscall)
    ensures s in CallsOf(CodeExecute) <==> MayUse(CodeExecute, s)
  {
  }

  lemma FileScanCalls(s: Syscall)
    ensures s in CallsOf(FileScan) <==> MayUse(FileScan, s)
  {
  }

  lemma ShellCalls(s: Syscall)
    ensures s in CallsOf(Shell) <==> MayUse(Shell, s)
  {
  }

  lemma HttpCalls(s: Syscall)
    ensures s in CallsOf(Http) <==> MayUse(Http, s)
  {
    hide CallsOf, MayUse;
    if MayUse(Http, s) { HttpUses(s); } else { HttpLacks(s); }
  }

  lemma HttpUses(s: Syscall)
    requires MayUse(Http, s)
    ensures s in CallsOf(Http)
  {
  }

  lemma HttpLacks(s: Syscall)
    requires !MayUse(Http, s)
    ensures s !in CallsOf(Http)
  {
  }

  lemma TlsCalls(s: Syscall)
    ensures s in CallsOf(Tls) <==> MayUse(Tls, s)
  {
  }

  lemma DbCalls(s: Syscall)
    ensures s in CallsOf(Db) <==> MayUse(Db, s)
  {
  }

  lemma DnsCalls(s: Syscall)
    ensures s in CallsOf(Dns) <==> MayUse(Dns, s)
  {
  }

  lemma AiCalls(s: Syscall)
    ensures s in CallsOf(Ai) <==> MayUse(Ai, s)
  {
  }

  lemma MediaCallCalls(s: Syscall)
    ensures s in CallsOf(MediaCall) <==> MayUse(MediaCall, s)
  {
  }

  lemma CalculationCalls(s: Syscall)
    ensures s in CallsOf(Calculation) <==> MayUse(Calculation, s)
  {
  }

  lemma DataCalls(s: Syscall)
    ensures s in CallsOf(Data) <==> MayUse(Data, s)
  {
  }

  lemma MetricsCalls(s: Syscall)
    ensures s in CallsOf(Metrics) <==> MayUse(Metrics, s)
  {
  }

  lemma MuxNativeCalls(s: Syscall)
    ensures s in CallsOf(MuxNative) <==> MayUse(MuxNative, s)
  {
  }

  lemma CallByCall(c: IntentClass, s: Syscall)
    ensures s in CallsOf(c) <==> MayUse(c, s)
  {
    match c
    case CodeExecute => CodeExecuteCalls(s);
    case FileScan => FileScanCalls(s);
    case Shell => ShellCalls(s);
    case Http => HttpCalls(s);
    case Tls => TlsCalls(s);
    case Db => DbCalls(s);
    case Dns => DnsCalls(s);
    case Ai => AiCalls(s);
    case MediaCall => MediaCallCalls(s);
    case Calculation => CalculationCalls(s);
    case Data => DataCalls(s);
    case Metrics => MetricsCalls(s);
    case MuxNative => MuxNativeCalls(s);
    case Unknown =>
  }

  lemma BaseIsBase(s: Syscall)
    ensures s in BASE_ALLOWED <==> IsBase(s)
  {
    hide IsBase;
    if IsBase(s) { BaseUses(s); } else { BaseLacks(s); }
  }

  lemma BaseUses(s: Syscall)
    requires IsBase(s)
    ensures s in BASE_ALLOWED
  {
  }

  lemma BaseLacks(s: Syscall)
    requires !IsBase(s)
    ensures s !in BASE_ALLOWED
  {
  }

  /**
   What a compiled filter permits, call by call, for every intent and architecture: on x86_64 the base calls, and those of
   the table for which its intent is listed; and nothing else anywhere.
   */
  lemma CompiledPolicy(intent: string, arch: nat, nr: nat)
    ensures Exec(Program(Allowed(intent)), 0, 0, arch, nr) == Returned(
              if arch == 0xC000_003E && (exists s :: Nr(s) == nr && (IsBase(s) || MayUse(ClassOf(intent), s)))
              then 0x7FFF_0000 else 0)
  {
    hide Exec, Program, CallsOf, MayUse, IsBase, ClassOf, Merge, Nr;
    NothingDeniedIsAllowed(intent);
    ShortProgramsAreCorrect(Allowed(intent), arch, nr);
    forall s: Syscall ensures s in Allowed(intent) <==> IsBase(s) || MayUse(ClassOf(intent), s) {
      CallByCall(ClassOf(intent), s);
      BaseIsBase(s);
    }
  }

  /** Calls that no intent may make: starting processes, tracing, mounting, rebooting and changing identity. */
  lemma NoIntentMay(intent: string, arch: nat, nr: nat)
    requires nr in {56, 57, 59, 101, 103, 105, 165, 169, 246}
    ensures Exec(Program(Allowed(intent)), 0, 0, arch, nr) == Returned(0)
  {
    hide Exec, Program, Allowed, ClassOf, Nr;
    CompiledPolicy(intent, arch, nr);
    var s := FromNr(nr).value;
    NumbersNameCalls(s, nr);
    forall t | Nr(t) == nr ensures t == s {
      NumbersNameCalls(t, nr);
    }
  }

  /** Calls that every intent may make on x86_64. */
  lemma EveryIntentMay(intent: string, nr: nat)
    requires nr in {0, 1, 3, 5, 10, 12, 21, 24, 32, 33, 39, 60, 72, 79, 102, 231}
    ensures Exec(Program(Allowed(intent)), 0, 0, 0xC000_003E, nr) == Returned(0x7FFF_0000)
  {
    hide Exec, Program, Allowed, ClassOf, Nr, MayUse;
    CompiledPolicy(intent, 0xC000_003E, nr);
    NumbersNameCalls(FromNr(nr).value, nr);
  }

  // ---------------------------------------------------------------- which intents are of which class

  lemma Head(s: string, p: string)
    requires |p| >= 2
    ensures StartsWith(s, p) || s == p ==> |s| >= 2 && s[0] == p[0] && s[1] == p[1]
  {
  }

  /** Every test of the table looks at the first two characters, at least. */
  lemma Heads(s: string)
    requires |s| >= 2
    ensures s == "code:execute" ==> s[0] == 'c' && s[1] == 'o'
    ensures s == "file:scan" ==> s[0] == 'f'
    ensures StartsWith(s, "shell:") ==> s[0] == 's'
    ensures StartsWith(s, "http:") ==> s[0] == 'h'
    ensures StartsWith(s, "tls:") ==> s[0] == 't'
    ensures StartsWith(s, "db:") ==> s[0] == 'd' && s[1] == 'b'
    ensures StartsWith(s, "dns:") ==> s[0] == 'd' && s[1] == 'n'
    ensures StartsWith(s, "ai:") ==> s[0] == 'a'
    ensures StartsWith(s, "call:") ==> s[0] == 'c' && s[1] == 'a'
    ensures s == "math_calculation" ==> s[0] == 'm' && s[1] == 'a'
    ensures StartsWith(s, "data:") ==> s[0] == 'd' && s[1] == 'a'
    ensures StartsWith(s, "metrics:") ==> s[0] == 'm' && s[1] == 'e'
    ensures s == "mux:native" ==> s[0] == 'm' && s[1] == 'u'
  {
    hide StartsWith;
    Head(s, "code:execute"); Head(s, "file:scan"); Head(s, "shell:"); Head(s, "http:"); Head(s, "tls:");
    Head(s, "db:"); Head(s, "dns:"); Head(s, "ai:"); Head(s, "call:"); Head(s, "math_calculation"); Head(s, "data:");
    Head(s, "metrics:"); Head(s, "mux:native");
  }

  lemma Prefixed(p: string, rest: string)
    ensures StartsWith(p + rest, p) && |p + rest| >= |p| && forall k | 0 <= k < |p| :: (p + rest)[k] == p[k]
  {
  }

  /** Nine prefixes decide, whatever follows them; four intents are named in full. */
  lemma IntentClasses(rest: string)
    ensures ClassOf("shell:" + rest) == Shell && ClassOf("http:" + rest) == Http && ClassOf("tls:" + rest) == Tls
    ensures ClassOf("db:" + rest) == Db && ClassOf("dns:" + rest) == Dns && ClassOf("ai:" + rest) == Ai
    ensures ClassOf("call:" + rest) == MediaCall && ClassOf("data:" + rest) == Data && ClassOf("metrics:" + rest) == Metrics
    ensures ClassOf("code:execute") == CodeExecute && ClassOf("file:scan") == FileScan
    ensures ClassOf("math_calculation") == Calculation && ClassOf("mux:native") == MuxNative
  {
    hide StartsWith;
    Prefixed("shell:", rest); Heads("shell:" + rest);
    Prefixed("http:", rest); Heads("http:" + rest);
    Prefixed("tls:", rest); Heads("tls:" + rest);
    Prefixed("db:", rest); Heads("db:" + rest);
    Prefixed("dns:", rest); Heads("dns:" + rest);
    Prefixed("ai:", rest); Heads("ai:" + rest);
    Prefixed("call:", rest); Heads("call:" + rest);
    Prefixed("data:", rest); Heads("data:" + rest);
    Prefixed("metrics:", rest); Heads("metrics:" + rest);
    Heads("math_calculation"); Heads("mux:native"); Heads("file:scan");
  }

  /** Any other intent gets the base calls only. */
  lemma UnlistedIntents(s: string)
    ensures ClassOf(s) == Unknown <==>
              && s != "code:execute" && s != "file:scan" && s != "math_calculation" && s != "mux:native"
              && !StartsWith(s, "shell:") && !StartsWith(s, "http:") && !StartsWith(s, "tls:") && !StartsWith(s, "db:")
              && !StartsWith(s, "dns:") && !StartsWith(s, "ai:") && !StartsWith(s, "call:") && !StartsWith(s, "data:")
              && !StartsWith(s, "metrics:")
  {
    hide StartsWith;
  }
}
