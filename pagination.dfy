/** The page/per_page clamp that both list services apply before querying. */
module Pagination {
  import opened Common

  /** Largest page size a caller can obtain. */
  const PerPageLimit: int := 40
  /** Largest offset handed to the database (kept 32-bit-signed safe). */
  const MaxOffset: int := 2147483646

  /** The LIMIT and OFFSET a list request is executed with. */
  datatype Window = Window(limit: nat, offset: nat)

  function Min(a: int, b: int): int
  {
    if a <= b then a else b
  }

  /**
   * Validates a 1-based page number and a page size and turns them into a
   * query window: page below 1 is NotFound, page size below 1 is BadRequest
   * (checked in that order), the size is capped at PerPageLimit and the
   * offset at MaxOffset.
   */
  function Clamp(page: int, perPage: int): (r: Result<Window>)
    ensures page < 1 ==> r == Err(NotFound)
    ensures page >= 1 && perPage < 1 ==> r == Err(BadRequest)
    ensures page >= 1 && perPage >= 1 ==> r.Ok?
    ensures r.Ok? ==> 1 <= r.value.limit <= PerPageLimit && r.value.limit <= perPage
    ensures r.Ok? && perPage <= PerPageLimit ==> r.value.limit == perPage
    ensures r.Ok? && perPage >= PerPageLimit ==> r.value.limit == PerPageLimit
    ensures r.Ok? ==> r.value.offset <= MaxOffset
    ensures r.Ok? && (page - 1) * r.value.limit <= MaxOffset ==> r.value.offset == (page - 1) * r.value.limit
    ensures r.Ok? && (page - 1) * r.value.limit > MaxOffset ==> r.value.offset == MaxOffset
  {
    if page < 1 then Err(NotFound)
    else if perPage < 1 then Err(BadRequest)
    else
      var limit := Min(Min(perPage, PerPageLimit), MaxOffset);
      var offset := Min((page - 1) * limit, MaxOffset);
      assert (page - 1) * limit >= 0;
      Ok(Window(limit, offset))
  }

  /** The windows of two consecutive pages are adjacent while below the offset cap. */
  lemma NextPageAdjacent(page: int, perPage: int)
    requires page >= 1 && perPage >= 1
    requires page * Min(perPage, PerPageLimit) <= MaxOffset
    ensures Clamp(page + 1, perPage).Ok? && Clamp(page, perPage).Ok?
    ensures Clamp(page + 1, perPage).value.offset == Clamp(page, perPage).value.offset + Clamp(page, perPage).value.limit
  {
    var w := Clamp(page, perPage).value;
    assert w.limit == Min(perPage, PerPageLimit);
    assert (page - 1) * w.limit <= page * w.limit;
  }

  /** A later page never starts before an earlier one. */
  lemma OffsetMonotone(p: int, q: int, perPage: int)
    requires 1 <= p <= q && perPage >= 1
    ensures Clamp(p, perPage).value.offset <= Clamp(q, perPage).value.offset
  {
    var l := Clamp(p, perPage).value.limit;
    assert (q - p) * l >= 0;
    assert (p - 1) * l <= (q - 1) * l by {
      assert (q - 1) * l == (p - 1) * l + (q - p) * l;
    }
  }
}
