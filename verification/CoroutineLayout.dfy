/** Where the parts of a coroutine's block lie (minicoro.h). Addresses and sizes are 64 bits wide. */
module CoroutineLayout {

  const SIZE_LIMIT := 0x1_0000_0000_0000_0000

  const MIN_STACK_SIZE := 32768
  const DEFAULT_STACK_SIZE := 57344

  type Size = x: int | 0 <= x < SIZE_LIMIT witness 0

  /** Addition of size_t. */
  function Plus(a: Size, b: Size): Size {
    (a + b) % SIZE_LIMIT
  }

  /** For a power of two, addr & ~(align-1) is addr less its remainder. */
  lemma MaskIsRemainder(addr: bv64)
    ensures addr & !15 == addr - addr % 16
  {
  }

  /** _mco_align_forward(addr, 16). */
  function AlignForward(addr: Size): Size {
    Plus(addr, 15) - Plus(addr, 15) % 16
  }

  /** Bit k of a number. */
  function Bit(n: nat, k: nat): nat {
    if k == 0 then n % 2 else Bit(n / 2, k - 1)
  }

  lemma HighBit(n: nat, k: nat)
    requires k >= 4
    ensures Bit(n, k) == Bit(n / 16, k - 4)
  {
    assert n / 2 / 2 / 2 / 2 == n / 16;
    assert Bit(n, k) == Bit(n / 2, k - 1) == Bit(n / 2 / 2, k - 2) == Bit(n / 2 / 2 / 2, k - 3);
  }

  lemma LowBit(n: nat, k: nat)
    requires k < 4
    ensures Bit(16 * n, k) == 0
  {
    assert 16 * n / 2 == 8 * n && 8 * n / 2 == 4 * n && 4 * n / 2 == 2 * n;
    assert Bit(4 * n, 1) == Bit(2 * n, 0) == 0;
    assert Bit(8 * n, 2) == Bit(4 * n, 1);
    assert Bit(16 * n, 3) == Bit(8 * n, 2);
    assert Bit(8 * n, 1) == Bit(4 * n, 0) == 0;
    assert Bit(16 * n, 2) == Bit(8 * n, 1);
  }

  /** Bit by bit, it is the masked sum: the last four bits are cleared and the others stay. */
  lemma MaskedBits(addr: Size, k: nat)
    ensures Bit(AlignForward(addr), k) == if k < 4 then 0 else Bit(Plus(addr, 15), k)
  {
    var n := Plus(addr, 15);
    assert AlignForward(addr) == 16 * (n / 16);
    if k < 4 {
      LowBit(n / 16, k);
    } else {
      HighBit(n, k);
      HighBit(16 * (n / 16), k);
    }
  }

  predicate Aligned(addr: int) {
    addr % 16 == 0
  }

  /** What alignment gives, if the address is not at the very end: the next multiple of 16. */
  lemma AlignedNext(addr: Size)
    ensures Aligned(AlignForward(addr))
    ensures addr + 15 < SIZE_LIMIT ==> addr <= AlignForward(addr) <= addr + 15
    ensures addr + 15 < SIZE_LIMIT ==> forall a: int :: addr <= a && Aligned(a) ==> AlignForward(addr) <= a
  {
  }

  /** The description of a coroutine, as mco_desc_init leaves it. */
  datatype Desc = Desc(stackSize: Size, storageSize: Size, coroSize: Size)

  /** The stack size a caller asks for is raised to the minimum and aligned; zero stands for the
      default. */
  function StackSize(asked: Size): Size {
    AlignForward(if asked == 0 then DEFAULT_STACK_SIZE else if asked < MIN_STACK_SIZE then MIN_STACK_SIZE else asked)
  }

  /** Asked for nothing, the stack has 57344 bytes; otherwise it is the least multiple of 16 that is
      at least what was asked for and at least 32768. */
  lemma StackIsLargeEnough(asked: Size)
    requires asked + 15 < SIZE_LIMIT
    ensures asked == 0 ==> StackSize(asked) == 57344
    ensures asked <= StackSize(asked) && 32768 <= StackSize(asked) && StackSize(asked) % 16 == 0
    ensures forall a: int :: 0 < asked <= a && 32768 <= a && Aligned(a) ==> StackSize(asked) <= a
  {
    AlignedNext(asked);
    AlignedNext(MIN_STACK_SIZE);
    AlignedNextIs(57344, 57344);
  }

  /** _mco_init_desc_sizes, for a header and a context of given sizes. */
  function InitDescSizes(header: Size, context: Size, storage: Size, stack: Size): Desc {
    Desc(stack, storage,
         Plus(Plus(Plus(Plus(AlignForward(header), AlignForward(context)), AlignForward(storage)), stack), 16))
  }

  /** Where _mco_create_context puts the parts. */
  datatype Layout = Layout(context: Size, storage: Size, stack: Size)

  function CreateContext(co: Size, header: Size, context: Size, desc: Desc): Layout {
    var contextAddr := AlignForward(Plus(co, header));
    var storageAddr := AlignForward(Plus(contextAddr, context));
    var stackAddr := AlignForward(Plus(storageAddr, desc.storageSize));
    Layout(contextAddr, storageAddr, stackAddr)
  }

  /** The sizes, rounded up, add up to a size_t. */
  predicate SizesFit(header: Size, context: Size, storage: Size, stack: Size) {
    && header + 15 < SIZE_LIMIT && context + 15 < SIZE_LIMIT && storage + 15 < SIZE_LIMIT
    && AlignForward(header) + AlignForward(context) + AlignForward(storage) + stack + 16 < SIZE_LIMIT
  }

  lemma SizesAdded(header: Size, context: Size, storage: Size, stack: Size)
    requires SizesFit(header, context, storage, stack)
    ensures InitDescSizes(header, context, storage, stack).coroSize
      == AlignForward(header) + AlignForward(context) + AlignForward(storage) + stack + 16
  {
    hide AlignForward;
  }

  lemma DescKeeps(header: Size, context: Size, storage: Size, stack: Size)
    ensures InitDescSizes(header, context, storage, stack).stackSize == stack
    ensures InitDescSizes(header, context, storage, stack).storageSize == storage
  {
  }

  /** Rounding the end of a part up takes no more than rounding its size up, from an aligned
      start. */
  lemma AlignedAfter(start: Size, size: Size)
    requires Aligned(start) && size + 15 < SIZE_LIMIT && start + AlignForward(size) < SIZE_LIMIT
    ensures Plus(start, size) == start + size && AlignForward(start + size) == start + AlignForward(size)
    ensures Aligned(start + AlignForward(size)) && size <= AlignForward(size)
  {
    hide AlignForward, Aligned;
    AlignedNext(size);
    AlignedSum(start, AlignForward(size));
    AlignedNextIs(start + size, start + AlignForward(size));
  }

  lemma AlignedSum(a: int, b: int)
    requires Aligned(a) && Aligned(b)
    ensures Aligned(a + b)
  {
  }

  lemma AlignedNextIs(addr: Size, next: Size)
    requires Aligned(next) && addr <= next < addr + 16
    ensures AlignForward(addr) == next
  {
  }

  /** For a block at any address, at least as large as was asked for: the context, the storage and
      the stack are aligned, and they lie one behind the other, behind the header and inside the
      block. */
  lemma PartsFit(co: Size, header: Size, context: Size, storage: Size, stack: Size)
    requires SizesFit(header, context, storage, stack)
    requires co + InitDescSizes(header, context, storage, stack).coroSize <= SIZE_LIMIT
    ensures var desc := InitDescSizes(header, context, storage, stack);
      var l := CreateContext(co, header, context, desc);
      && Aligned(l.context) && Aligned(l.storage) && Aligned(l.stack)
      && co + header <= l.context
      && l.context + context <= l.storage
      && l.storage + storage <= l.stack
      && l.stack + desc.stackSize <= co + desc.coroSize
  {
    SizesAdded(header, context, storage, stack);
    DescKeeps(header, context, storage, stack);
    hide AlignForward, InitDescSizes, Aligned, CreateContext;
    PartsPlaced(co, header, context, storage, InitDescSizes(header, context, storage, stack));
  }

  lemma PartsPlaced(co: Size, header: Size, context: Size, storage: Size, desc: Desc)
    requires header + 15 < SIZE_LIMIT && context + 15 < SIZE_LIMIT && storage + 15 < SIZE_LIMIT
    requires desc.storageSize == storage
    requires co + AlignForward(header) + AlignForward(context) + AlignForward(storage) + 16 <= SIZE_LIMIT
    ensures var l := CreateContext(co, header, context, desc);
      && Aligned(l.context) && Aligned(l.storage) && Aligned(l.stack)
      && co + header <= l.context <= co + AlignForward(header) + 15
      && l.storage == l.context + AlignForward(context) && context <= AlignForward(context)
      && l.stack == l.storage + AlignForward(storage) && storage <= AlignForward(storage)
  {
    hide AlignForward, Plus, Aligned;
    HeaderEnds(co, header);
    var contextAddr := AlignForward(co + header);
    AlignedAfter(contextAddr, context);
    AlignedAfter(contextAddr + AlignForward(context), storage);
  }

  /** The context starts at most 15 bytes behind where it would in an aligned block. */
  lemma HeaderEnds(co: Size, header: Size)
    requires header + 15 < SIZE_LIMIT && co + AlignForward(header) + 16 <= SIZE_LIMIT
    ensures Plus(co, header) == co + header
    ensures Aligned(AlignForward(co + header))
    ensures co + header <= AlignForward(co + header) <= co + AlignForward(header) + 15
  {
    hide AlignForward, Aligned;
    AlignedNext(header);
    AlignedNext(co + header);
  }

  /** Fifteen of the sixteen spare bytes are needed: there is a block whose stack ends that far. */
  lemma SpareBytesNeeded()
    ensures exists co: Size, header: Size, context: Size, storage: Size ::
      var desc := InitDescSizes(header, context, storage, MIN_STACK_SIZE);
      var l := CreateContext(co, header, context, desc);
      SizesFit(header, context, storage, MIN_STACK_SIZE) && l.stack + desc.stackSize == co + desc.coroSize - 1
  {
    var co, header, context, storage: Size := 1, 16, 16, 16;
    AlignedNextIs(16, 16);
    AlignedNextIs(17, 32);
    AlignedNextIs(48, 48);
    AlignedNextIs(64, 64);
    hide AlignForward, InitDescSizes;
    SizesAdded(16, 16, 16, MIN_STACK_SIZE);
    DescKeeps(16, 16, 16, MIN_STACK_SIZE);
    var desc := InitDescSizes(header, context, storage, MIN_STACK_SIZE);
    assert CreateContext(co, header, context, desc) == Layout(32, 48, 64);
    assert 64 + desc.stackSize == co + desc.coroSize - 1;
  }
}
