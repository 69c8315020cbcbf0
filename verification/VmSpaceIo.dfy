/** Reading and writing a virtual memory space: what the permissions of a mapping let a caller do. */
module VmSpaceIo {
  import opened AddressSpaceIo
  import opened MemorySet
  import opened PageTable
  import opened VmSpace
  import opened Wrappers

  /** Inside a range of pages that are all writable or all not, a write succeeds exactly with the
      former. */
  lemma PermissionDecides(view: View, p: nat, n: nat, w: bool, addr: Vaddr, len: nat)
    requires forall q :: p <= q < p + n ==> q in view && (view[q].flags.writable <==> w)
    requires p * 4096 <= addr && addr + len <= (p + n) * 4096 && len > 0
    ensures (forall x: Vaddr :: addr <= x < addr + len ==> Vpn(x) in view && view[Vpn(x)].flags.writable) <==> w
    ensures forall x: Vaddr :: addr <= x < addr + len ==> Vpn(x) in view
  {
    forall x: Vaddr | addr <= x < addr + len ensures p <= Vpn(x) < p + n {
    }
    assert p <= Vpn(addr) < p + n && (view[Vpn(addr)].flags.writable <==> w);
  }

  predicate InRam(mem: Mem, frames: seq<Paddr>) {
    forall i :: 0 <= i < |frames| ==> frames[i] in mem && |mem[frames[i]]| == 4096
  }

  lemma BackedWithFrames(mem: Mem, view: View, view': View, p: nat, frames: seq<Paddr>, flags: Flags)
    requires Backed(mem, view) && InRam(mem, frames) && WithFrames(view, view', p, frames, flags)
    ensures Backed(mem, view')
  {
    forall q | q in view' ensures view'[q].addr in mem && |mem[view'[q].addr]| == 4096 {
      assert FramesAt(view, view', p, frames, flags, q);
    }
  }

  method WriteBytes(vm: VmSpace, ram: Ram, addr: Vaddr, data: seq<Byte>) returns (ok: bool)
    requires vm.Valid() && Backed(ram.bytes, vm.ms.pt.view)
    modifies ram
    ensures |data| > 0 ==>
              (ok <==> forall x: Vaddr :: addr <= x < addr + |data| ==>
                         Vpn(x) in vm.ms.pt.view && vm.ms.pt.view[Vpn(x)].flags.writable)
    ensures ok && DistinctFrames(vm.ms.pt.view, addr, |data|) ==>
              forall i :: 0 <= i < |data| ==> ByteAt(ram.bytes, vm.ms.pt.view, addr + i, data[i])
  {
    ok := AddressSpaceIo.WriteBytes(vm.ms, ram, addr, data);
  }

  /** Frames mapped and then written to: the write succeeds exactly if the mapping permits it. */
  method MapThenWrite(vm: VmSpace, ram: Ram, frames: seq<Paddr>, base: Vaddr, perm: VmPerm, supply: seq<Paddr>,
                      addr: Vaddr, data: seq<Byte>) returns (r: Outcome<Vaddr, VmError>, ok: bool)
    requires vm.Valid() && AllFrames(frames) && |supply| >= 3 * |frames| && Supply(vm.ms.pt.tables, supply)
    requires Backed(ram.bytes, vm.ms.pt.view) && InRam(ram.bytes, frames)
    requires Aligned(base) && base <= addr && addr + |data| <= base + |frames| * 4096 < 0x1_0000_0000_0000_0000
    requires |data| > 0
    modifies vm.ms, vm.ms.pt, ram
    ensures r.Done? ==> (ok <==> perm.w)
  {
    ghost var view := vm.ms.pt.view;
    ok := false;
    r := vm.Map(frames, Some(base), perm, false, supply);
    if r.Done? {
      BackedWithFrames(ram.bytes, view, vm.ms.pt.view, Vpn(base), frames, FlagsOf(perm));
      PermissionDecides(vm.ms.pt.view, Vpn(base), |frames|, perm.w, addr, |data|);
      ok := WriteBytes(vm, ram, addr, data);
    }
  }

  /** The same after the permissions of a range have been changed. */
  method ProtectThenWrite(vm: VmSpace, ram: Ram, start: Vaddr, end: Vaddr, perm: VmPerm, addr: Vaddr, data: seq<Byte>)
    returns (r: Outcome<(), VmError>, ok: bool)
    requires vm.Valid() && Backed(ram.bytes, vm.ms.pt.view)
    requires start <= addr && addr + |data| <= end && |data| > 0
    modifies vm.ms, vm.ms.pt, ram
    ensures r.Done? ==> (ok <==> perm.w)
  {
    ok := false;
    r := vm.Protect(start, end, perm);
    if r.Done? {
      PermissionDecides(vm.ms.pt.view, Vpn(start), Vpn(end) - Vpn(start), perm.w, addr, |data|);
      ok := WriteBytes(vm, ram, addr, data);
    }
  }
}
