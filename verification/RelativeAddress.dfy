/** Relative addresses over two library load addresses (src/process_android.c:253-339). Addresses are
    64-bit; the arithmetic is on integers with the top bit written out. */
module RelativeAddress {

  const TOP_BIT := 0x8000_0000_0000_0000
  const TWO_TO_THE_64 := 0x1_0000_0000_0000_0000

  type Address = a: int | 0 <= a < TWO_TO_THE_64

  /** A loaded library as dl_iterate_phdr reports it: which of the two names it contains, and where. */
  datatype Library = Library(isCore: bool, isSmb: bool, addr: Address)

  predicate NamesCore(lib: Library) {
    lib.isCore
  }

  predicate NamesSmb(lib: Library) {
    !lib.isCore && lib.isSmb
  }

  /** The two load addresses that the library walk finds. */
  class LoadAddresses {
    var core: Address
    var smb: Address

    constructor ()
      ensures core == 0 && smb == 0
    {
      core := 0;
      smb := 0;
    }

    /** process_dump_libs_callback: the core name is tried first. */
    method Visit(lib: Library)
      modifies this
      ensures core == (if lib.isCore then lib.addr else old(core))
      ensures smb == (if !lib.isCore && lib.isSmb then lib.addr else old(smb))
    {
      if lib.isCore {
        core := lib.addr;
      } else if lib.isSmb {
        smb := lib.addr;
      }
    }

    /** ofc_process_dump_libs_impl: afterwards each base is that of the last library with its name. */
    method DumpLibs(libs: seq<Library>)
      modifies this
      ensures LastOf(libs, NamesCore, old(core), core)
      ensures LastOf(libs, NamesSmb, old(smb), smb)
    {
      for n := 0 to |libs|
        invariant LastOf(libs[..n], NamesCore, old(core), core)
        invariant LastOf(libs[..n], NamesSmb, old(smb), smb)
      {
        LastOfNext(libs, n, NamesCore, old(core), core, libs[n].addr);
        LastOfNext(libs, n, NamesSmb, old(smb), smb, libs[n].addr);
        Visit(libs[n]);
      }
      assert libs[..|libs|] == libs;
    }
  }

  /** base is the address of the last picked library, or its old value when none is picked. */
  ghost predicate LastOf(libs: seq<Library>, pick: Library -> bool, before: Address, base: Address) {
    (base == before && forall i | 0 <= i < |libs| :: !pick(libs[i])) ||
    (exists i :: 0 <= i < |libs| && pick(libs[i]) && base == libs[i].addr &&
       forall j | i < j < |libs| :: !pick(libs[j]))
  }

  lemma LastOfNext(libs: seq<Library>, n: nat, pick: Library -> bool, before: Address, base: Address, addr: Address)
    requires n < |libs| && addr == libs[n].addr && LastOf(libs[..n], pick, before, base)
    ensures LastOf(libs[..n + 1], pick, before, if pick(libs[n]) then addr else base)
  {
    var next := libs[..n + 1];
    assert next[n] == libs[n];
    if !pick(libs[n]) && !(base == before && forall i | 0 <= i < n :: !pick(libs[..n][i])) {
      var i :| 0 <= i < n && pick(libs[..n][i]) && base == libs[..n][i].addr &&
        forall j | i < j < n :: !pick(libs[..n][j]);
      assert pick(next[i]) && base == next[i].addr;
      assert forall j | i < j < n :: next[j] == libs[..n][j];
    }
  }

  /** Bitwise or with the top bit. */
  function SetTop(x: Address): Address {
    if x < TOP_BIT then x + TOP_BIT else x
  }

  function RelativeAddr(addr: Address, core: Address, smb: Address): Address {
    if core == 0 || smb == 0 then 0
    else if core > smb then
      if addr > core then addr - core
      else if addr > smb then SetTop(addr - smb)
      else 0
    else if smb > core then
      if addr > smb then SetTop(addr - smb)
      else if addr > core then addr - core
      else 0
    else 0
  }

  /** Reading a relative address back: the top bit says which base to add. */
  function Decode(rel: Address, core: Address, smb: Address): int {
    if rel >= TOP_BIT then rel - TOP_BIT + smb else rel + core
  }

  /** The bases tell the two libraries apart. */
  predicate TwoBases(core: Address, smb: Address) {
    core != 0 && smb != 0 && core != smb
  }

  function Lower(core: Address, smb: Address): Address {
    if core < smb then core else smb
  }

  /** The greatest base strictly below an address above the lower base. */
  function BaseBelow(addr: Address, core: Address, smb: Address): (base: Address)
    requires TwoBases(core, smb) && addr > Lower(core, smb)
    ensures base == core || base == smb
    ensures base < addr
    ensures (core < addr ==> core <= base) && (smb < addr ==> smb <= base)
  {
    if core > smb then (if addr > core then core else smb)
    else (if addr > smb then smb else core)
  }

  /** The encoding is the distance to that base, tagged when the base is that of the smb library. */
  lemma EncodesOffsetFromBaseBelow(addr: Address, core: Address, smb: Address)
    requires TwoBases(core, smb) && addr > Lower(core, smb)
    ensures RelativeAddr(addr, core, smb) ==
            if BaseBelow(addr, core, smb) == smb then SetTop(addr - smb) else addr - core
  {
  }

  /** Zero is the answer exactly when there is nothing to be relative to. */
  lemma ZeroIffNoBase(addr: Address, core: Address, smb: Address)
    ensures RelativeAddr(addr, core, smb) == 0 <==>
            !TwoBases(core, smb) || addr <= Lower(core, smb)
  {
  }

  /** The address comes back from its encoding exactly when its distance to the base below it leaves the
      top bit clear. The one other case has the bases 2^63 apart and the address on the upper one. */
  lemma DecodableIffOffsetFits(addr: Address, core: Address, smb: Address)
    requires TwoBases(core, smb) && addr > Lower(core, smb)
    ensures Decode(RelativeAddr(addr, core, smb), core, smb) == addr <==>
            addr - BaseBelow(addr, core, smb) < TOP_BIT || (addr == smb && smb == core + TOP_BIT)
  {
  }

  /** In particular every address below 2^63 comes back, tagged with the library it lies in. */
  lemma LowAddressesDecode(addr: Address, core: Address, smb: Address)
    requires TwoBases(core, smb) && Lower(core, smb) < addr < TOP_BIT
    ensures Decode(RelativeAddr(addr, core, smb), core, smb) == addr
    ensures RelativeAddr(addr, core, smb) >= TOP_BIT <==> BaseBelow(addr, core, smb) == smb
  {
    DecodableIffOffsetFits(addr, core, smb);
  }

  /** Distinct low addresses have distinct encodings. */
  lemma LowAddressesInjective(a: Address, b: Address, core: Address, smb: Address)
    requires TwoBases(core, smb) && Lower(core, smb) < a < TOP_BIT && Lower(core, smb) < b < TOP_BIT
    requires RelativeAddr(a, core, smb) == RelativeAddr(b, core, smb)
    ensures a == b
  {
    LowAddressesDecode(a, core, smb);
    LowAddressesDecode(b, core, smb);
  }
}
