/** Classic BPF as seccomp runs it: a 32-bit accumulator, loads from struct
    seccomp_data, forward jumps and returns. */
module Bpf {
  import opened Optional

  datatype SeccompData = SeccompData(nr: bv32, arch: bv32, ip: bv64, args: seq<bv64>)

  predicate Valid(d: SeccompData) { |d.args| == 6 }

  datatype Instr =
    | LdAbs(off: nat)
    | Jeq(k: bv32, jt: nat, jf: nat)
    | Jge(k: bv32, jt: nat, jf: nat)
    | Jgt(k: bv32, jt: nat, jf: nat)
    | Jset(k: bv32, jt: nat, jf: nat)
    | Ja(off: nat)
    | AddK(k: bv32)
    | RetK(k: bv32)

  type Program = seq<Instr>

  function Low(x: bv64): bv32 { (x & 0xFFFF_FFFF) as bv32 }
  function High(x: bv64): bv32 { (x >> 32) as bv32 }

  /** offsetof(struct seccomp_data, args[i]) */
  function ArgOff(i: nat): nat { 16 + 8 * i }

  /** The 32-bit word at a byte offset, on a little-endian machine. */
  function Load(d: SeccompData, off: nat): Option<bv32>
    requires Valid(d)
  {
    if off == 0 then Some(d.nr)
    else if off == 4 then Some(d.arch)
    else if off == 8 then Some(Low(d.ip))
    else if off == 12 then Some(High(d.ip))
    else if 16 <= off < 64 && off % 8 == 0 then Some(Low(d.args[(off - 16) / 8]))
    else if 16 <= off < 64 && off % 8 == 4 then Some(High(d.args[(off - 16) / 8]))
    else None
  }

  /** What one instruction does: skip some instructions with a new accumulator, return
      a value, or load outside the data. */
  datatype Effect = Skip(n: nat, a: bv32) | Return(k: bv32) | Fault

  function Exec(i: Instr, d: SeccompData, a: bv32): Effect
    requires Valid(d)
  {
    match i
    case LdAbs(off) => (match Load(d, off) case Some(w) => Skip(0, w) case None => Fault)
    case Jeq(k, jt, jf) => Skip(if a == k then jt else jf, a)
    case Jge(k, jt, jf) => Skip(if a >= k then jt else jf, a)
    case Jgt(k, jt, jf) => Skip(if a > k then jt else jf, a)
    case Jset(k, jt, jf) => Skip(if a & k != 0 then jt else jf, a)
    case Ja(off) => Skip(off, a)
    case AddK(k) => Skip(0, a + k)
    case RetK(k) => Return(k)
  }

  /** The result of the program from instruction `pc` with accumulator `a`; None when
      it runs off its end or loads outside the data, which the kernel refuses. */
  function Run(p: Program, d: SeccompData, pc: nat, a: bv32): Option<bv32>
    requires Valid(d)
    decreases |p| - pc
  {
    if pc >= |p| then None
    else match Exec(p[pc], d, a)
      case Skip(n, a') => Run(p, d, pc + 1 + n, a')
      case Return(k) => Some(k)
      case Fault => None
  }

  /** A filter starts at its first instruction with a zero accumulator. */
  function Filter(p: Program, d: SeccompData): Option<bv32>
    requires Valid(d)
  {
    Run(p, d, 0, 0)
  }

  /** One instruction forward. */
  lemma {:induction false} Go(p: Program, d: SeccompData, pc: nat, a: bv32, n: nat, b: bv32)
    requires Valid(d) && pc < |p| && Exec(p[pc], d, a) == Skip(n, b)
    ensures Run(p, d, pc, a) == Run(p, d, pc + 1 + n, b)
  {
  }

  lemma {:induction false} RelocateWithin(q: Program, off: nat, s: Program, d: SeccompData, i: nat, a: bv32)
    requires Valid(d) && |q| == off + |s| && forall j :: 0 <= j < |s| ==> q[off + j] == s[j]
    ensures Run(q, d, off + i, a) == Run(s, d, i, a)
    decreases |s| - i
  {
    if i < |s| {
      var e := Exec(s[i], d, a);
      assert Exec(q[off + i], d, a) == e;
      if e.Skip? {
        Go(q, d, off + i, a, e.n, e.a);
        Go(s, d, i, a, e.n, e.a);
        RelocateWithin(q, off, s, d, i + 1 + e.n, e.a);
      }
    }
  }

  /** Jumps are relative and forward, so code behind a prefix runs as it would alone. */
  lemma {:induction false} Relocate(p: Program, s: Program, d: SeccompData, i: nat, a: bv32)
    requires Valid(d)
    ensures Run(p + s, d, |p| + i, a) == Run(s, d, i, a)
  {
    RelocateWithin(p + s, |p|, s, d, i, a);
  }

  /** The longest program the kernel takes (BPF_MAXINSNS). */
  const MAX_INSNS: nat := 4096

  /** The kernel's checks on a program. */
  predicate Accepted(p: Program) { |p| <= MAX_INSNS && Checked(p) }

  /** Its checks on the instructions: the last instruction returns, jumps stay inside the
      program, and loads are aligned words of the data. */
  predicate Checked(p: Program) {
    |p| > 0 && p[|p|-1].RetK? && forall i :: 0 <= i < |p| ==> CheckedAt(p[i], |p| - i - 1)
  }

  /** `room` instructions follow this one. */
  predicate CheckedAt(i: Instr, room: nat) {
    match i
    case LdAbs(off) => off < 64 && off % 4 == 0
    case Ja(off) => off < room
    case AddK(_) => true
    case RetK(_) => true
    case _ => i.jt < room && i.jf < room
  }

  /** A program that passes the checks always has an answer, one of its returns. */
  lemma {:induction false} CheckedReturns(p: Program, d: SeccompData, pc: nat, a: bv32)
    requires Valid(d) && Checked(p) && pc < |p|
    ensures Run(p, d, pc, a).Some? && RetK(Run(p, d, pc, a).value) in p
    decreases |p| - pc
  {
    assert CheckedAt(p[pc], |p| - pc - 1);
    CheckedEffect(p[pc], d, a, |p| - pc - 1);
    match Exec(p[pc], d, a)
    case Skip(n, a') =>
      if pc + 1 + n < |p| {
        CheckedReturns(p, d, pc + 1 + n, a');
      }
    case _ =>
  }

  lemma {:induction false} CheckedEffect(i: Instr, d: SeccompData, a: bv32, room: nat)
    requires Valid(d) && CheckedAt(i, room)
    ensures match Exec(i, d, a)
            case Skip(n, _) => !i.RetK? && (n == 0 || n < room)
            case Return(k) => i == RetK(k)
            case Fault => false
  {
  }
}
