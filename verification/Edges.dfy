/** Trace edges, the address constants of the trace format, and the fake source
    address that replaces a trace exit. */
module Edges {

  /** A control-flow edge between two code addresses. */
  datatype Edge = Edge(src: nat, dst: nat)

  /** The address that stands for "outside the traced code". */
  const EXIT_IP: nat := 0xffff_ffff_ffff_ffff

  /** Addresses below this one have no line information. */
  const KERNEL_BASE: nat := 0xffff_ffff_0000_0000

  const SENTINEL := Edge(EXIT_IP, EXIT_IP)

  /** The low-address stand-in for a jump from `src` out of the traced code. */
  function FakeExit(src: nat): nat {
    (src % 0xffff_ffff) * 0x1_0000_0000 + 0xffff_ffff
  }

  /** A fake address is never mistaken for "no pending exit" (zero), for the exit
      address, or for a kernel address. */
  lemma FakeExitIsTraceExit(src: nat)
    ensures FakeExit(src) != 0
    ensures FakeExit(src) != EXIT_IP
    ensures FakeExit(src) < KERNEL_BASE
  {
    assert src % 0xffff_ffff <= 0xffff_fffe;
  }

  /** A fake address holds the source's remainder in its high half and all ones in
      its low half. */
  lemma FakeExitHalves(src: nat)
    ensures FakeExit(src) % 0x1_0000_0000 == 0xffff_ffff
    ensures FakeExit(src) / 0x1_0000_0000 == src % 0xffff_ffff
  {
  }

  /** Exactly which exits share a fake address. */
  lemma FakeExitCollision(a: nat, b: nat)
    ensures FakeExit(a) == FakeExit(b) <==> a % 0xffff_ffff == b % 0xffff_ffff
  {
  }

  /** On kernel addresses the low half of the source can be read back. */
  lemma FakeExitRecoversKernelSource(src: nat)
    requires KERNEL_BASE <= src < EXIT_IP
    ensures KERNEL_BASE + FakeExit(src) / 0x1_0000_0000 == src
  {
    var low := src - KERNEL_BASE;
    assert src == 0xffff_ffff * 0x1_0000_0000 + low;
    assert src % 0xffff_ffff == low;
  }

  /** So no two kernel exits share a fake address. */
  lemma FakeExitInjectiveOnKernel(a: nat, b: nat)
    requires KERNEL_BASE <= a < EXIT_IP && KERNEL_BASE <= b < EXIT_IP
    requires FakeExit(a) == FakeExit(b)
    ensures a == b
  {
    FakeExitRecoversKernelSource(a);
    FakeExitRecoversKernelSource(b);
  }
}
