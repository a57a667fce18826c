/** Address arithmetic over application buffers. A binding names a base address (0 is a null
    pointer); slot s of a rowset lives at base + offset + s * step, where the step is the
    field's own extent (column-wise, row stride 0) or the row stride (row-wise). */
module AddressSpans {
  import opened Options
  import opened MachineWords

  const MAXIMUM: Size := SIZE_MAX as Size
  const SQLLEN_BYTES: Size := 8

  /** One past the last byte of a slot, as a mathematical integer. */
  function SlotEnd(base: int, offset: int, slot: int, step: int, extent: int): int {
    base + offset + slot * step + extent
  }

  predicate SlotFits(base: Size, offset: Size, slot: int, step: Size, extent: Size) {
    SlotEnd(base as int, offset as int, slot, step as int, extent as int) <= SIZE_MAX
  }

  function Step(extent: Size, rowStride: Size): Size {
    if rowStride == 0 then extent else rowStride
  }

  /** Every byte of every slot is addressable. */
  ghost predicate Addressable(base: Size, offset: Size, extent: Size, size: Size, rowStride: Size) {
    forall slot: int :: 0 <= slot < size as int ==> SlotFits(base, offset, slot, Step(extent, rowStride), extent)
  }

  // ---- the division-form checks of fetch_impl -------------------------------------

  predicate SpanFits(address: Size, count: Size, stride: Size) {
    address == 0 || count == 0 || stride == 0 || count <= (MAXIMUM - address) / stride
  }

  predicate RowSpanFits(address: Size, extent: Size, size: Size, rowStride: Size)
    requires rowStride != 0
  {
    address == 0 || size == 0 ||
    (extent <= MAXIMUM - address && size - 1 <= (MAXIMUM - address - extent) / rowStride)
  }

  predicate FieldSpanFits(base: Size, offset: Size, extent: Size, size: Size, rowStride: Size) {
    base == 0 ||
    (offset <= MAXIMUM - base &&
     (if rowStride == 0 then SpanFits(base + offset, size, extent)
      else RowSpanFits(base + offset, extent, size, rowStride)))
  }

  lemma DivisionBound(quotient: int, product: int, divisor: int)
    requires divisor > 0
    ensures quotient <= product / divisor <==> quotient * divisor <= product
  {
    assert product == product / divisor * divisor + product % divisor;
    if quotient <= product / divisor {
      assert quotient * divisor <= product / divisor * divisor;
    } else {
      assert (product / divisor + 1) * divisor <= quotient * divisor;
    }
  }

  lemma SlotEndGrows(base: int, offset: int, slot: int, last: int, step: int, extent: int)
    requires 0 <= slot <= last && step >= 0
    ensures SlotEnd(base, offset, slot, step, extent) <= SlotEnd(base, offset, last, step, extent)
  {
    assert slot * step <= last * step;
  }

  /** Only the last slot matters. */
  lemma AddressableIffLast(base: Size, offset: Size, extent: Size, size: Size, rowStride: Size)
    requires size != 0
    ensures Addressable(base, offset, extent, size, rowStride) <==>
            SlotFits(base, offset, size as int - 1, Step(extent, rowStride), extent)
  {
    var step := Step(extent, rowStride);
    if SlotFits(base, offset, size as int - 1, step, extent) {
      forall slot: int | 0 <= slot < size as int
        ensures SlotFits(base, offset, slot, step, extent)
      {
        SlotEndGrows(base as int, offset as int, slot, size as int - 1, step as int, extent as int);
      }
    }
  }

  /** The fetch preflight succeeds iff every slot of the field is addressable, in both layouts. */
  lemma FieldPreflightExact(base: Size, offset: Size, extent: Size, size: Size, rowStride: Size)
    requires base != 0 && size != 0
    ensures FieldSpanFits(base, offset, extent, size, rowStride) <==>
            Addressable(base, offset, extent, size, rowStride)
  {
    AddressableIffLast(base, offset, extent, size, rowStride);
    var room := SIZE_MAX - base as int - offset as int;
    var n, e := size as int, extent as int;
    if rowStride == 0 {
      assert (n - 1) * e + e == n * e;
      if extent != 0 {
        DivisionBound(n, room, e);
      }
    } else {
      DivisionBound(n - 1, room - e, rowStride as int);
    }
  }

  /** The address formed while a row is transferred. Its own sums and product cannot wrap,
      and the transferred bytes stay addressable. */
  function FieldAddress(base: Size, offset: Size, slot: Size, extent: Size, rowStride: Size, size: Size): (a: Size)
    requires base != 0 && slot < size
    requires FieldSpanFits(base, offset, extent, size, rowStride)
    ensures a as int + extent as int
         == SlotEnd(base as int, offset as int, slot as int, Step(extent, rowStride) as int, extent as int)
    ensures a as int + extent as int <= SIZE_MAX
  {
    FieldPreflightExact(base, offset, extent, size, rowStride);
    assert SlotFits(base, offset, slot as int, Step(extent, rowStride), extent);
    assert 0 <= slot as int * Step(extent, rowStride) as int <= SIZE_MAX;
    base + offset + slot * Step(extent, rowStride)
  }

  datatype Binding = Binding(data: Size, indicator: Size, octetLength: Size,
                             stride: Option<Size>, convertible: bool)

  predicate Bound(b: Binding) {
    b.data != 0 || b.indicator != 0 || b.octetLength != 0
  }

  /** Everything a transfer of the column will touch is addressable. */
  ghost predicate ColumnAddressable(b: Binding, offset: Size, size: Size, rowStride: Size) {
    && (b.data != 0 ==> b.stride.Some? && Addressable(b.data, offset, b.stride.value, size, rowStride))
    && (b.indicator != 0 ==> Addressable(b.indicator, offset, SQLLEN_BYTES, size, rowStride))
    && (b.octetLength != 0 ==> Addressable(b.octetLength, offset, SQLLEN_BYTES, size, rowStride))
  }

  /** The column loop of the fetch preflight. */
  method PreflightColumns(columns: seq<Binding>, offset: Size, size: Size, rowStride: Size) returns (fits: bool)
    requires size != 0
    ensures fits <==> forall c :: 0 <= c < |columns| && Bound(columns[c]) && columns[c].convertible ==>
      ColumnAddressable(columns[c], offset, size, rowStride)
  {
    for c := 0 to |columns|
      invariant forall d :: 0 <= d < c && Bound(columns[d]) && columns[d].convertible ==>
        ColumnAddressable(columns[d], offset, size, rowStride)
    {
      var b := columns[c];
      if !Bound(b) || !b.convertible {
        continue;
      }
      var stride := if b.data != 0 then b.stride else Some(0);
      if b.data != 0 && b.stride.Some? {
        FieldPreflightExact(b.data, offset, b.stride.value, size, rowStride);
      }
      if b.indicator != 0 {
        FieldPreflightExact(b.indicator, offset, SQLLEN_BYTES, size, rowStride);
      }
      if b.octetLength != 0 {
        FieldPreflightExact(b.octetLength, offset, SQLLEN_BYTES, size, rowStride);
      }
      if stride.None? || !FieldSpanFits(b.data, offset, stride.value, size, rowStride) ||
         !FieldSpanFits(b.indicator, offset, SQLLEN_BYTES, size, rowStride) ||
         !FieldSpanFits(b.octetLength, offset, SQLLEN_BYTES, size, rowStride) {
        return false;
      }
    }
    return true;
  }

  // ---- one slot at a time: bulk fetch and array parameters ------------------------

  lemma ProductFits(factor: int, divisor: int, room: int)
    requires factor >= 0 && divisor > 0
    ensures factor <= room / divisor <==> 0 <= factor * divisor <= room
  {
    DivisionBound(factor, room, divisor);
    assert 0 <= factor * divisor;
  }

  /** The `field` closure of `bulk_operations`: divides by the step. */
  function BulkField(base: Size, offset: Size, slot: Size, extent: Size, rowStride: Size): (a: Option<Size>)
    requires base != 0
    ensures a.Some? <==> SlotFits(base, offset, slot as int, Step(extent, rowStride), extent)
    ensures a.Some? ==> a.value as int == base as int + offset as int + slot as int * Step(extent, rowStride) as int
  {
    ProductNonnegative(slot as int, Step(extent, rowStride) as int);
    if offset > MAXIMUM - base then None
    else Advance(base + offset, slot, Step(extent, rowStride), extent)
  }

  function Advance(address: Size, slot: Size, step: Size, extent: Size): (a: Option<Size>)
    ensures a.Some? <==> address as int + slot as int * step as int + extent as int <= SIZE_MAX
    ensures a.Some? ==> a.value as int == address as int + slot as int * step as int
  {
    if step == 0 then Within(address, 0, extent)
    else
      ProductFits(slot as int, step as int, SIZE_MAX - address as int);
      if slot > (MAXIMUM - address) / step then None
      else Within(address, slot * step, extent)
  }

  lemma ProductNonnegative(a: int, b: int)
    requires a >= 0 && b >= 0
    ensures a * b >= 0
  {
  }

  function Within(address: Size, distance: Size, extent: Size): (a: Option<Size>)
    requires address as int + distance as int <= SIZE_MAX
    ensures a.Some? <==> address as int + distance as int + extent as int <= SIZE_MAX
    ensures a.Some? ==> a.value == address + distance
  {
    if extent > MAXIMUM - (address + distance) then None else Some(address + distance)
  }

  /** The `shift` closure of `start_pending_array`: divides by the slot. */
  function ParameterShift(base: Size, offset: Size, slot: Size, step: Size, extent: Size, stride: Size): (a: Option<Size>)
    requires base != 0
    ensures a.Some? <==> SlotFits(base, offset, slot as int, Step(step, stride), extent)
    ensures a.Some? ==> a.value as int == base as int + offset as int + slot as int * Step(step, stride) as int
  {
    ProductNonnegative(slot as int, Step(step, stride) as int);
    if offset > MAXIMUM - base then None
    else AdvanceBySlot(base + offset, slot, Step(step, stride), extent)
  }

  function AdvanceBySlot(first: Size, slot: Size, increment: Size, extent: Size): (a: Option<Size>)
    ensures a.Some? <==> first as int + slot as int * increment as int + extent as int <= SIZE_MAX
    ensures a.Some? ==> a.value as int == first as int + slot as int * increment as int
  {
    if slot == 0 then Within(first, 0, extent)
    else
      ProductFits(increment as int, slot as int, SIZE_MAX - first as int);
      assert increment as int * slot as int == slot as int * increment as int;
      if increment > (MAXIMUM - first) / slot then None
      else Within(first, increment * slot, extent)
  }

  /** A bulk preflight of the last slot alone covers all earlier slots, and it accepts exactly
      what the rowset preflight accepts. */
  lemma LastSlotCoversAll(base: Size, offset: Size, extent: Size, count: Size, rowStride: Size, slot: Size)
    requires base != 0 && slot < count
    ensures BulkField(base, offset, count - 1, extent, rowStride).Some? <==>
            FieldSpanFits(base, offset, extent, count, rowStride)
    ensures BulkField(base, offset, count - 1, extent, rowStride).Some? ==>
            BulkField(base, offset, slot, extent, rowStride)
            == Some(FieldAddress(base, offset, slot, extent, rowStride, count))
  {
    AddressableIffLast(base, offset, extent, count, rowStride);
    FieldPreflightExact(base, offset, extent, count, rowStride);
    SlotEndGrows(base as int, offset as int, slot as int, count as int - 1,
                 Step(extent, rowStride) as int, extent as int);
  }
}
