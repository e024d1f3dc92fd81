/** The seccomp filters of the repository, instruction by instruction, and for each
    a decision function that says what it means for every input. */
module SeccompFilters {
  import opened Bpf
  import opened Optional

  const AUDIT_ARCH_X86_64: bv32 := 0xC000_003E
  const AUDIT_ARCH_I386: bv32 := 0x4000_0003
  const AUDIT_ARCH_AARCH64: bv32 := 0xC000_00B7
  const X32_SYSCALL_BIT: bv32 := 0x4000_0000

  const RET_KILL_PROCESS: bv32 := 0x8000_0000
  const RET_ERRNO: bv32 := 0x0005_0000
  const RET_USER_NOTIF: bv32 := 0x7FC0_0000
  const RET_TRACE: bv32 := 0x7FF0_0000
  const RET_ALLOW: bv32 := 0x7FFF_0000

  const OFF_NR: nat := 0
  const OFF_ARCH: nat := 4

  const NR_OPEN: bv32 := 2
  const NR_LSEEK: bv32 := 8
  const NR_MKDIR: bv32 := 83
  const NR_OPENAT: bv32 := 257
  const NR_OPENAT_AARCH64: bv32 := 56
  const NR_MQ_NOTIFY_X86_64: bv32 := 244
  const NR_MQ_NOTIFY_I386: bv32 := 281
  const NR_MQ_NOTIFY_X32: bv32 := 527

  const O_WRONLY: bv32 := 1
  const O_RDWR: bv32 := 2
  const O_CREAT: bv32 := 0x40
  const ENOTSUP: bv32 := 95

  /** Not an x86-64 system call: another architecture, or the x32 ABI. */
  predicate Foreign(d: SeccompData) { d.arch != AUDIT_ARCH_X86_64 || d.nr >= X32_SYSCALL_BIT }

  // ----- the shared prologue

  const PROLOGUE: Program := [
    LdAbs(OFF_ARCH),
    Jeq(AUDIT_ARCH_X86_64, 0, 2),
    LdAbs(OFF_NR),
    Jge(X32_SYSCALL_BIT, 0, 1),
    RetK(RET_KILL_PROCESS)]

  /** For every suffix: the prologue kills a foreign call and otherwise runs the suffix
      alone, with the system call number in the accumulator. */
  lemma {:induction false} PrologueGuards(s: Program, d: SeccompData)
    requires Valid(d)
    ensures Filter(PROLOGUE + s, d) == if Foreign(d) then Some(RET_KILL_PROCESS) else Run(s, d, 0, d.nr)
  {
    var p := PROLOGUE + s;
    assert p[0] == PROLOGUE[0] && p[1] == PROLOGUE[1] && p[2] == PROLOGUE[2];
    assert p[3] == PROLOGUE[3] && p[4] == PROLOGUE[4];
    Go(p, d, 0, 0, 0, d.arch);
    if d.arch == AUDIT_ARCH_X86_64 {
      Go(p, d, 1, d.arch, 0, d.arch);
      Go(p, d, 2, d.arch, 0, d.nr);
      if d.nr < X32_SYSCALL_BIT {
        Go(p, d, 3, d.nr, 1, d.nr);
        Relocate(PROLOGUE, s, d, 0, d.nr);
      } else {
        Go(p, d, 3, d.nr, 0, d.nr);
      }
    } else {
      Go(p, d, 1, d.arch, 2, d.arch);
    }
  }

  // ----- seccomp_arg64.c

  const LSEEK_BODY: Program := [
    Jeq(NR_LSEEK, 1, 0),
    RetK(RET_ALLOW),
    LdAbs(ArgOff(1) + 4),
    Jeq(0, 1, 0),
    RetK(RET_ERRNO | 2),
    LdAbs(ArgOff(1)),
    Jgt(1000, 0, 1),
    RetK(RET_ERRNO | 1),
    RetK(RET_ALLOW)]

  lemma Halves(x: bv64)
    ensures High(x) == 0 <==> x < 0x1_0000_0000
    ensures High(x) == 0 ==> (Low(x) > 1000 <==> x > 1000)
  {
  }

  /** Offsets are compared as unsigned 64-bit numbers. */
  function OffsetDecision(x: bv64): bv32 {
    if x <= 1000 then RET_ALLOW else if x >= 0x1_0000_0000 then RET_ERRNO | 2 else RET_ERRNO | 1
  }

  function LseekDecision(d: SeccompData): bv32
    requires Valid(d)
  {
    if Foreign(d) then RET_KILL_PROCESS
    else if d.nr == NR_LSEEK then OffsetDecision(d.args[1])
    else RET_ALLOW
  }

  lemma {:induction false} OffsetDecides(d: SeccompData, a: bv32)
    requires Valid(d)
    ensures Run(LSEEK_BODY, d, 2, a) == Some(OffsetDecision(d.args[1]))
  {
    var b, x := LSEEK_BODY, d.args[1];
    Halves(x);
    Go(b, d, 2, a, 0, High(x));
    if High(x) == 0 {
      Go(b, d, 3, High(x), 1, High(x));
      Go(b, d, 5, High(x), 0, Low(x));
      Go(b, d, 6, Low(x), if Low(x) > 1000 then 0 else 1, Low(x));
    }
  }

  /** The two 32-bit tests decide the unsigned 64-bit comparison. */
  lemma {:induction false} LseekFilterDecides(d: SeccompData)
    requires Valid(d)
    ensures Filter(PROLOGUE + LSEEK_BODY, d) == Some(LseekDecision(d))
  {
    PrologueGuards(LSEEK_BODY, d);
    OffsetDecides(d, d.nr);
    Go(LSEEK_BODY, d, 0, d.nr, if d.nr == NR_LSEEK then 1 else 0, d.nr);
  }

  // ----- seccomp_unotify_mkdir.c

  const NOTIFY_BODY: Program := [
    Jeq(NR_MKDIR, 0, 1),
    RetK(RET_USER_NOTIF),
    RetK(RET_ALLOW)]

  lemma {:induction false} NotifyFilterDecides(d: SeccompData)
    requires Valid(d)
    ensures Filter(PROLOGUE + NOTIFY_BODY, d) ==
            Some(if Foreign(d) then RET_KILL_PROCESS else if d.nr == NR_MKDIR then RET_USER_NOTIF else RET_ALLOW)
  {
    PrologueGuards(NOTIFY_BODY, d);
  }

  function SecondBody(last: Instr): Program {
    [Jeq(NR_MKDIR, 1, 0), RetK(RET_ALLOW), last]
  }

  /** What the second filter returns for mkdir(), by the command-line option. */
  function SecondReturn(secondFilter: bv32): bv32 {
    if secondFilter == RET_ERRNO then RET_ERRNO | ENOTSUP else RET_TRACE
  }

  /** installFilter2(): the last slot of the table is patched before installation. */
  method BuildSecondFilter(secondFilter: bv32) returns (filter: array<Instr>)
    ensures filter[..] == PROLOGUE + SecondBody(RetK(SecondReturn(secondFilter)))
    ensures fresh(filter)
  {
    var table := PROLOGUE + [Jeq(NR_MKDIR, 1, 0), RetK(RET_ALLOW), RetK(0)];
    filter := new Instr[|table|](i requires 0 <= i < |table| => table[i]);
    filter[filter.Length - 1] := if secondFilter == RET_ERRNO then RetK(RET_ERRNO | ENOTSUP) else RetK(RET_TRACE);
  }

  /** The action part of a return value, compared by the kernel as a signed number:
      the smallest one wins. */
  function Precedence(ret: bv32): int {
    var act := (ret & 0xFFFF_0000) as int;
    if act >= 0x8000_0000 then act - 0x1_0000_0000 else act
  }

  /** The outcome of all installed filters, newest first; a tie keeps the earlier. */
  function RunAll(filters: seq<Program>, d: SeccompData): bv32
    requires Valid(d) && forall i :: 0 <= i < |filters| ==> Filter(filters[i], d).Some?
  {
    if filters == [] then RET_ALLOW
    else
      var sofar := RunAll(filters[..|filters|-1], d);
      var cur := Filter(filters[|filters|-1], d).value;
      if Precedence(cur) < Precedence(sofar) then cur else sofar
  }

  lemma Precedences()
    ensures Precedence(RET_KILL_PROCESS) < Precedence(RET_ERRNO | ENOTSUP) < Precedence(RET_USER_NOTIF)
    ensures Precedence(RET_USER_NOTIF) < Precedence(RET_TRACE) < Precedence(RET_ALLOW)
  {
  }

  lemma {:induction false} SecondFilterDecides(last: bv32, d: SeccompData)
    requires Valid(d)
    ensures Filter(PROLOGUE + SecondBody(RetK(last)), d) ==
            Some(if Foreign(d) then RET_KILL_PROCESS else if d.nr == NR_MKDIR then last else RET_ALLOW)
  {
    PrologueGuards(SecondBody(RetK(last)), d);
  }

  /** With both filters installed, an error return hides the notification and a trace
      return does not. */
  lemma {:induction false} ErrnoBeatsNotifyBeatsTrace(secondFilter: bv32, d: SeccompData)
    requires Valid(d)
    ensures var second := PROLOGUE + SecondBody(RetK(SecondReturn(secondFilter)));
            var both := [second, PROLOGUE + NOTIFY_BODY];
            && (forall i :: 0 <= i < |both| ==> Filter(both[i], d).Some?)
            && RunAll(both, d) ==
                 if Foreign(d) then RET_KILL_PROCESS
                 else if d.nr != NR_MKDIR then RET_ALLOW
                 else if secondFilter == RET_ERRNO then RET_ERRNO | ENOTSUP
                 else RET_USER_NOTIF
  {
    var last := SecondReturn(secondFilter);
    var second, first := PROLOGUE + SecondBody(RetK(last)), PROLOGUE + NOTIFY_BODY;
    SecondFilterDecides(last, d);
    NotifyFilterDecides(d);
    Precedences();
    var both := [second, first];
    assert both[..1] == [second];
    assert [second][..0] == [];
    assert RunAll([], d) == RET_ALLOW;
    assert RunAll([second], d) == Filter(second, d).value;
  }

  // ----- seccomp_control_open.c

  datatype Machine = X86_64 | AArch64 | Other

  /** The tests on the flags word, joined by both ways in. */
  const FLAGS_BODY: Program := [
    Jset(O_CREAT, 0, 1),
    RetK(RET_KILL_PROCESS),
    Jset(O_WRONLY | O_RDWR, 0, 1),
    RetK(RET_ERRNO | ENOTSUP),
    RetK(RET_ALLOW)]

  /** The program the preprocessor leaves for each machine. */
  function OpenFilter(m: Machine): Program {
    match m
    case X86_64 =>
      [LdAbs(OFF_ARCH), Jeq(AUDIT_ARCH_X86_64, 1, 0), RetK(RET_KILL_PROCESS), LdAbs(OFF_NR),
       Jge(X32_SYSCALL_BIT, 0, 1), RetK(RET_KILL_PROCESS),
       Jeq(NR_OPEN, 0, 2), LdAbs(ArgOff(1)), Ja(3),
       Jeq(NR_OPENAT, 1, 0), RetK(RET_ALLOW), LdAbs(ArgOff(2))] + FLAGS_BODY
    case AArch64 =>
      [LdAbs(OFF_ARCH), Jeq(AUDIT_ARCH_AARCH64, 1, 0), RetK(RET_KILL_PROCESS), LdAbs(OFF_NR),
       Jeq(NR_OPENAT_AARCH64, 1, 0), RetK(RET_ALLOW), LdAbs(ArgOff(2))] + FLAGS_BODY
    case Other =>
      [LdAbs(OFF_ARCH), RetK(RET_KILL_PROCESS), LdAbs(OFF_NR),
       Jeq(NR_OPENAT, 1, 0), RetK(RET_ALLOW), LdAbs(ArgOff(2))] + FLAGS_BODY
  }

  function FlagsDecision(flags: bv32): bv32 {
    if flags & O_CREAT != 0 then RET_KILL_PROCESS
    else if flags & (O_WRONLY | O_RDWR) != 0 then RET_ERRNO | ENOTSUP
    else RET_ALLOW
  }

  function OpenDecision(m: Machine, d: SeccompData): bv32
    requires Valid(d)
  {
    match m
    case X86_64 =>
      if Foreign(d) then RET_KILL_PROCESS
      else if d.nr == NR_OPEN then FlagsDecision(Low(d.args[1]))
      else if d.nr == NR_OPENAT then FlagsDecision(Low(d.args[2]))
      else RET_ALLOW
    case AArch64 =>
      if d.arch != AUDIT_ARCH_AARCH64 then RET_KILL_PROCESS
      else if d.nr == NR_OPENAT_AARCH64 then FlagsDecision(Low(d.args[2]))
      else RET_ALLOW
    case Other => RET_KILL_PROCESS
  }

  lemma {:induction false} FlagsDecide(pre: Program, d: SeccompData, flags: bv32)
    requires Valid(d)
    ensures Run(pre + FLAGS_BODY, d, |pre|, flags) == Some(FlagsDecision(flags))
  {
    Relocate(pre, FLAGS_BODY, d, 0, flags);
    var b := FLAGS_BODY;
    if flags & O_CREAT == 0 {
      Go(b, d, 0, flags, 1, flags);
      Go(b, d, 2, flags, if flags & (O_WRONLY | O_RDWR) != 0 then 0 else 1, flags);
    } else {
      Go(b, d, 0, flags, 0, flags);
    }
  }

  lemma {:induction false} OpenX86Open(d: SeccompData)
    requires Valid(d) && d.nr == NR_OPEN
    ensures Run(OpenFilter(X86_64), d, 6, d.nr) == Some(FlagsDecision(Low(d.args[1])))
  {
    var p := OpenFilter(X86_64);
    var f := Low(d.args[1]);
    Go(p, d, 6, d.nr, 0, d.nr);
    Go(p, d, 7, d.nr, 0, f);
    Go(p, d, 8, f, 3, f);
    assert p == p[..12] + FLAGS_BODY;
    FlagsDecide(p[..12], d, f);
  }

  lemma {:induction false} OpenX86Openat(d: SeccompData)
    requires Valid(d) && d.nr != NR_OPEN
    ensures Run(OpenFilter(X86_64), d, 6, d.nr) ==
            Some(if d.nr == NR_OPENAT then FlagsDecision(Low(d.args[2])) else RET_ALLOW)
  {
    var p := OpenFilter(X86_64);
    Go(p, d, 6, d.nr, 2, d.nr);
    if d.nr == NR_OPENAT {
      var f := Low(d.args[2]);
      Go(p, d, 9, d.nr, 1, d.nr);
      Go(p, d, 11, d.nr, 0, f);
      assert p == p[..12] + FLAGS_BODY;
      FlagsDecide(p[..12], d, f);
    } else {
      Go(p, d, 9, d.nr, 0, d.nr);
    }
  }

  /** From the x32 test on. */
  lemma {:induction false} OpenX86Number(d: SeccompData)
    requires Valid(d) && d.arch == AUDIT_ARCH_X86_64
    ensures Run(OpenFilter(X86_64), d, 4, d.nr) == Some(OpenDecision(X86_64, d))
  {
    var p := OpenFilter(X86_64);
    if d.nr >= X32_SYSCALL_BIT {
      Go(p, d, 4, d.nr, 0, d.nr);
    } else {
      Go(p, d, 4, d.nr, 1, d.nr);
      if d.nr == NR_OPEN {
        OpenX86Open(d);
      } else {
        OpenX86Openat(d);
      }
    }
  }

  lemma {:induction false} OpenFilterX86(d: SeccompData)
    requires Valid(d)
    ensures Filter(OpenFilter(X86_64), d) == Some(OpenDecision(X86_64, d))
  {
    var p := OpenFilter(X86_64);
    Go(p, d, 0, 0, 0, d.arch);
    if d.arch == AUDIT_ARCH_X86_64 {
      Go(p, d, 1, d.arch, 1, d.arch);
      Go(p, d, 3, d.arch, 0, d.nr);
      OpenX86Number(d);
    } else {
      Go(p, d, 1, d.arch, 0, d.arch);
    }
  }

  lemma {:induction false} OpenAArch64Openat(d: SeccompData)
    requires Valid(d)
    ensures Run(OpenFilter(AArch64), d, 4, d.nr) ==
            Some(if d.nr == NR_OPENAT_AARCH64 then FlagsDecision(Low(d.args[2])) else RET_ALLOW)
  {
    var p := OpenFilter(AArch64);
    if d.nr == NR_OPENAT_AARCH64 {
      var f := Low(d.args[2]);
      Go(p, d, 4, d.nr, 1, d.nr);
      Go(p, d, 6, d.nr, 0, f);
      assert p == p[..7] + FLAGS_BODY;
      FlagsDecide(p[..7], d, f);
    } else {
      Go(p, d, 4, d.nr, 0, d.nr);
    }
  }

  lemma {:induction false} OpenFilterAArch64(d: SeccompData)
    requires Valid(d)
    ensures Filter(OpenFilter(AArch64), d) == Some(OpenDecision(AArch64, d))
  {
    var p := OpenFilter(AArch64);
    Go(p, d, 0, 0, 0, d.arch);
    if d.arch == AUDIT_ARCH_AARCH64 {
      Go(p, d, 1, d.arch, 1, d.arch);
      Go(p, d, 3, d.arch, 0, d.nr);
      OpenAArch64Openat(d);
    } else {
      Go(p, d, 1, d.arch, 0, d.arch);
    }
  }

  /** open() is judged by its second argument, openat() by its third, and on a machine
      the source does not know everything is killed. */
  lemma {:induction false} OpenFilterDecides(m: Machine, d: SeccompData)
    requires Valid(d)
    ensures Filter(OpenFilter(m), d) == Some(OpenDecision(m, d))
  {
    match m
    case X86_64 => OpenFilterX86(d);
    case AArch64 => OpenFilterAArch64(d);
    case Other => Go(OpenFilter(m), d, 0, 0, 0, d.arch);
  }

  // ----- seccomp_multiarch.c

  const MULTIARCH: Program := [
    LdAbs(OFF_ARCH),
    Jeq(AUDIT_ARCH_X86_64, 0, 5),
    LdAbs(OFF_NR),
    Jeq(NR_MQ_NOTIFY_X86_64, 0, 1),
    RetK(RET_ERRNO | NR_MQ_NOTIFY_X86_64),
    Jeq(NR_MQ_NOTIFY_X32 + X32_SYSCALL_BIT, 0, 5),
    RetK(RET_ERRNO | NR_MQ_NOTIFY_X32),
    Jeq(AUDIT_ARCH_I386, 0, 4),
    LdAbs(OFF_NR),
    Jeq(NR_MQ_NOTIFY_I386, 0, 1),
    RetK(RET_ERRNO | NR_MQ_NOTIFY_I386),
    RetK(RET_ALLOW),
    RetK(RET_KILL_PROCESS)]

  function MultiarchDecision(d: SeccompData): bv32 {
    if d.arch == AUDIT_ARCH_X86_64 then
      if d.nr == NR_MQ_NOTIFY_X86_64 then RET_ERRNO | NR_MQ_NOTIFY_X86_64
      else if d.nr == NR_MQ_NOTIFY_X32 + X32_SYSCALL_BIT then RET_ERRNO | NR_MQ_NOTIFY_X32
      else RET_ALLOW
    else if d.arch == AUDIT_ARCH_I386 then
      if d.nr == NR_MQ_NOTIFY_I386 then RET_ERRNO | NR_MQ_NOTIFY_I386 else RET_ALLOW
    else RET_KILL_PROCESS
  }

  lemma {:induction false} MultiarchX86(d: SeccompData)
    requires Valid(d) && d.arch == AUDIT_ARCH_X86_64
    ensures Run(MULTIARCH, d, 2, d.arch) == Some(MultiarchDecision(d))
  {
    var p := MULTIARCH;
    Go(p, d, 2, d.arch, 0, d.nr);
    if d.nr == NR_MQ_NOTIFY_X86_64 {
      Go(p, d, 3, d.nr, 0, d.nr);
    } else {
      Go(p, d, 3, d.nr, 1, d.nr);
      Go(p, d, 5, d.nr, if d.nr == NR_MQ_NOTIFY_X32 + X32_SYSCALL_BIT then 0 else 5, d.nr);
    }
  }

  lemma {:induction false} MultiarchOther(d: SeccompData)
    requires Valid(d) && d.arch != AUDIT_ARCH_X86_64
    ensures Run(MULTIARCH, d, 7, d.arch) == Some(MultiarchDecision(d))
  {
    var p := MULTIARCH;
    if d.arch == AUDIT_ARCH_I386 {
      Go(p, d, 7, d.arch, 0, d.arch);
      Go(p, d, 8, d.arch, 0, d.nr);
      Go(p, d, 9, d.nr, if d.nr == NR_MQ_NOTIFY_I386 then 0 else 1, d.nr);
    } else {
      Go(p, d, 7, d.arch, 4, d.arch);
    }
  }

  /** Each ABI gets its own error for its own mq_notify() number. */
  lemma {:induction false} MultiarchDecides(d: SeccompData)
    requires Valid(d)
    ensures Filter(MULTIARCH, d) == Some(MultiarchDecision(d))
  {
    Go(MULTIARCH, d, 0, 0, 0, d.arch);
    if d.arch == AUDIT_ARCH_X86_64 {
      Go(MULTIARCH, d, 1, d.arch, 0, d.arch);
      MultiarchX86(d);
    } else {
      Go(MULTIARCH, d, 1, d.arch, 5, d.arch);
      MultiarchOther(d);
    }
  }

  // ----- seccomp_bench.c

  function BenchInstr(c: char): Option<Instr> {
    match c
    case 'a' => Some(AddK(1))
    case 'j' => Some(Jeq(0, 0, 0))
    case 'l' => Some(LdAbs(0))
    case _ => None
  }

  ghost predicate IsBench(p: Program, c: char, icnt: nat) {
    && BenchInstr(c).Some? && |p| == icnt + 1 && p[icnt] == RetK(RET_ALLOW)
    && forall j :: 0 <= j < icnt ==> p[j] == BenchInstr(c).value
  }

  /** What create_filter() does: build the array, exit, or write before an empty array. */
  datatype Creation = Built(filter: array<Instr>) | Exits | WritesBefore

  /** create_filter() exits on an unknown instruction letter, or because calloc() is asked
      for a negative number of elements, which as a size is too large. With a count of -1
      calloc() is asked for none, and the return instruction goes before the array. */
  method CreateFilter(instr: char, icnt: int) returns (r: Creation)
    ensures r.Exits? <==> instr !in {'a', 'j', 'l'} || icnt < -1
    ensures r.WritesBefore? <==> instr in {'a', 'j', 'l'} && icnt == -1
    ensures r.Built? ==> icnt >= 0 && r.filter.Length == icnt + 1 && r.filter[icnt] == RetK(RET_ALLOW)
    ensures r.Built? ==> forall j :: 0 <= j < icnt ==>
              r.filter[j] == if instr == 'a' then AddK(1) else if instr == 'j' then Jeq(0, 0, 0) else LdAbs(0)
    ensures r.Built? ==> IsBench(r.filter[..], instr, icnt)
  {
    var instruction := BenchInstr(instr);
    if instruction.None? { return Exits; }
    var fsize := icnt + 1;
    if fsize < 0 { return Exits; }
    if icnt < 0 { return WritesBefore; }
    var filter := new Instr[fsize](_ => RetK(0));
    var j := 0;
    while j < icnt
      invariant 0 <= j <= icnt
      invariant forall i :: 0 <= i < j ==> filter[i] == instruction.value
    {
      filter[j] := instruction.value;
      j := j + 1;
    }
    filter[icnt] := RetK(RET_ALLOW);
    r := Built(filter);
  }

  /** The filter of any length allows every call. The length field that the kernel sees has
      16 bits; it takes the program exactly when fewer than 4096 instructions precede the
      return, since a program that is cut short does not end in its return. */
  lemma {:induction false} BenchAllows(p: Program, c: char, icnt: nat, d: SeccompData)
    requires Valid(d) && IsBench(p, c, icnt)
    ensures Filter(p, d) == Some(RET_ALLOW)
    ensures Accepted(p[..(icnt + 1) % 0x1_0000]) <==> icnt < MAX_INSNS
  {
    var len := (icnt + 1) % 0x1_0000;
    CheckedReturns(p, d, 0, 0);
    assert len < |p| ==> !Accepted(p[..len]);
    assert len == |p| ==> p[..len] == p;
  }
}
