/** The client's page cursor: bounded page sizes, offsets that only advance, and a cap on requests. */
module Pagination {
  import opened Common

  const MAX_RPC_PAGE_SIZE: nat := 256
  const MAX_RPC_PAGE_OFFSET: nat := 100_000
  const MAX_PAGINATED_REQUESTS: nat := MAX_RPC_PAGE_OFFSET / MAX_RPC_PAGE_SIZE + 2

  datatype CursorError = BadPageSize | OffsetTooLarge | TooManyRequests | NotAdvancing

  datatype Cursor = Cursor(offset: nat, requestCount: nat)

  const START := Cursor(0, 0)

  function Requested(c: Cursor, pageSize: nat): Result<Cursor, CursorError> {
    if pageSize == 0 || pageSize > MAX_RPC_PAGE_SIZE then Err(BadPageSize)
    else if c.offset > MAX_RPC_PAGE_OFFSET then Err(OffsetTooLarge)
    else if c.requestCount >= MAX_PAGINATED_REQUESTS then Err(TooManyRequests)
    else Ok(c.(requestCount := c.requestCount + 1))
  }

  /** Where the next page starts, or that there is none. */
  function Advanced(c: Cursor, hasMore: bool, nextOffset: nat): Result<Option<Cursor>, CursorError> {
    if !hasMore then Ok(None)
    else if nextOffset <= c.offset then Err(NotAdvancing)
    else if nextOffset > MAX_RPC_PAGE_OFFSET then Err(OffsetTooLarge)
    else Ok(Some(c.(offset := nextOffset)))
  }

  function PageSizeForTarget(target: nat): (size: nat)
    ensures 1 <= size <= MAX_RPC_PAGE_SIZE && (1 <= target <= MAX_RPC_PAGE_SIZE ==> size == target)
  {
    if target < 1 then 1 else if target > MAX_RPC_PAGE_SIZE then MAX_RPC_PAGE_SIZE else target
  }

  class PageCursor {
    var offset: nat
    var requestCount: nat

    function View(): Cursor
      reads this
    {
      Cursor(offset, requestCount)
    }

    constructor ()
      ensures View() == START
    {
      offset, requestCount := 0, 0;
    }

    method Request(pageSize: nat) returns (r: Result<(nat, nat), CursorError>)
      modifies this`requestCount
      ensures r.Ok? ==> Requested(old(View()), pageSize) == Ok(View()) && r.value == (offset, pageSize)
      ensures r.Err? ==> Requested(old(View()), pageSize) == Err(r.error) && View() == old(View())
    {
      if pageSize == 0 || pageSize > MAX_RPC_PAGE_SIZE {
        return Err(BadPageSize);
      }
      if offset > MAX_RPC_PAGE_OFFSET {
        return Err(OffsetTooLarge);
      }
      if requestCount >= MAX_PAGINATED_REQUESTS {
        return Err(TooManyRequests);
      }
      requestCount := requestCount + 1;
      return Ok((offset, pageSize));
    }

    method Advance(hasMore: bool, nextOffset: nat) returns (r: Result<bool, CursorError>)
      modifies this`offset
      ensures r == Ok(true) ==> Advanced(old(View()), hasMore, nextOffset) == Ok(Some(View()))
      ensures r == Ok(false) ==> Advanced(old(View()), hasMore, nextOffset) == Ok(None) && View() == old(View())
      ensures r.Err? ==> Advanced(old(View()), hasMore, nextOffset) == Err(r.error) && View() == old(View())
    {
      if !hasMore {
        return Ok(false);
      }
      if nextOffset <= offset {
        return Err(NotAdvancing);
      }
      if nextOffset > MAX_RPC_PAGE_OFFSET {
        return Err(OffsetTooLarge);
      }
      offset := nextOffset;
      return Ok(true);
    }
  }

  /** A page may be asked for within the limits of the protocol and below the cap, which counts the request. */
  lemma RequestsExactlyWhen(c: Cursor, pageSize: nat)
    ensures Requested(c, pageSize).Ok? <==> 1 <= pageSize <= 256 && c.offset <= 100_000 && c.requestCount < 392
    ensures Requested(c, pageSize).Ok? ==> Requested(c, pageSize).value == Cursor(c.offset, c.requestCount + 1)
  {
    assert MAX_PAGINATED_REQUESTS == 392;
  }

  /** The cursor moves exactly if more is announced at a later offset in range, and then to that offset. */
  lemma AdvancesExactlyWhen(c: Cursor, hasMore: bool, nextOffset: nat)
    ensures Advanced(c, hasMore, nextOffset) == Ok(None) <==> !hasMore
    ensures Advanced(c, hasMore, nextOffset) == Ok(Some(Cursor(nextOffset, c.requestCount)))
            <==> hasMore && c.offset < nextOffset <= 100_000
    ensures Advanced(c, hasMore, nextOffset) == Err(NotAdvancing) <==> hasMore && nextOffset <= c.offset
  {
  }

  // ----- The cap is exactly right -----

  /** The cursor after `n` answered requests: a first page of `first` items, then full pages. */
  function AfterFullPages(first: nat, n: nat): Result<Cursor, CursorError> {
    if n == 0 then Ok(START)
    else
      var before := AfterFullPages(first, n - 1);
      if before.Err? then before
      else
        var requested := Requested(before.value, MAX_RPC_PAGE_SIZE);
        if requested.Err? then requested
        else
          var page := if n == 1 then first else MAX_RPC_PAGE_SIZE;
          var advanced := Advanced(requested.value, true, requested.value.offset + page);
          if advanced.Err? then Err(advanced.error) else Ok(advanced.value.value)
  }

  /**
    A server that fills its pages never runs into the cap: the walk is refused only when the next
    offset would leave the supported range.
   */
  lemma {:induction false} FullPagesNeverHitTheCap(first: nat, n: nat)
    requires 1 <= first <= MAX_RPC_PAGE_SIZE
    ensures var c := AfterFullPages(first, n);
            if n == 0 || first + MAX_RPC_PAGE_SIZE * (n - 1) <= MAX_RPC_PAGE_OFFSET
            then c == Ok(Cursor(if n == 0 then 0 else first + MAX_RPC_PAGE_SIZE * (n - 1), n))
                 && Requested(c.value, MAX_RPC_PAGE_SIZE).Ok?
            else c == Err(OffsetTooLarge)
  {
    if n > 0 {
      FullPagesNeverHitTheCap(first, n - 1);
    }
  }

  /** And one request fewer would not do: with a first page of at most 160 items all 392 are used. */
  lemma AllRequestsCanBeUsed(first: nat)
    requires 1 <= first <= 160
    ensures MAX_PAGINATED_REQUESTS == 392
    ensures AfterFullPages(first, 391).Ok? && AfterFullPages(first, 391).value.requestCount == 391
    ensures Requested(AfterFullPages(first, 391).value, MAX_RPC_PAGE_SIZE).Ok?
    ensures AfterFullPages(first, 392) == Err(OffsetTooLarge)
  {
    FullPagesNeverHitTheCap(first, 391);
    FullPagesNeverHitTheCap(first, 392);
  }
}
