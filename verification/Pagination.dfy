/** Offset and limit paging of an array, and the next and prev links of a paged response. */
module Pagination {
  import opened Sums

  const INT_MAX := 0x7fff_ffff

  /** `Undefined` where the source's signed sum overflows. */
  datatype Page<T> =
    | Whole(items: seq<T>)
    | Paged(items: seq<T>, total: nat, offset: nat, limit: nat, hasMore: bool)
    | Undefined

  function Clamp(offset: int, total: nat): nat {
    if offset < 0 then 0 else if offset > total then total else offset
  }

  method Paginate<T>(full: seq<T>, offset: int, limit: int) returns (page: Page<T>)
    requires |full| <= INT_MAX && limit <= INT_MAX
    ensures page.Undefined? <==> limit > 0 && Clamp(offset, |full|) + limit > INT_MAX
    ensures limit <= 0 ==> page == Whole(full)
    ensures limit > 0 && !page.Undefined? ==> page == PageAt(full, offset, limit)
  {
    var total := |full|;
    if limit <= 0 {
      return Whole(full);
    }
    var o := offset;
    if o < 0 {
      o := 0;
    }
    if o > total {
      o := total;
    }
    if o + limit > INT_MAX {
      return Undefined;
    }
    var items: seq<T> := [];
    var i := o;
    while i < total && i < o + limit
      invariant o <= i <= total && i <= o + limit
      invariant items == full[o..i]
    {
      items := items + [full[i]];
      i := i + 1;
    }
    page := Paged(items, total, o, limit, o + limit < total);
  }

  function PageAt<T>(full: seq<T>, offset: int, limit: int): (page: Page<T>)
    requires limit > 0
    ensures page.Paged?
  {
    var o := Clamp(offset, |full|);
    Paged(full[o..if o + limit < |full| then o + limit else |full|], |full|, o, limit, o + limit < |full|)
  }

  /**
   What a page is: a run of the array of at most `limit` elements, shorter only
   at the end, that starts at the offset brought into range; and there is more
   exactly when elements follow it.
   */
  lemma PageMeans<T>(full: seq<T>, offset: int, limit: int)
    requires limit > 0
    ensures var page := PageAt(full, offset, limit);
      && page.total == |full| && page.limit == limit
      && (offset < 0 ==> page == PageAt(full, 0, limit))
      && (0 <= offset <= |full| ==> page.offset == offset)
      && (offset >= |full| ==> page.items == [] && page.offset == |full| && !page.hasMore)
      && page.offset + |page.items| <= |full| && page.items == full[page.offset..page.offset + |page.items|]
      && |page.items| <= limit && (|page.items| < limit ==> page.offset + |page.items| == |full|)
      && (page.hasMore <==> page.offset + |page.items| < |full|)
  {
  }

  /** A client that adds the limit to the offset while there is more. */
  function Walk<T>(full: seq<T>, offset: nat, limit: nat): seq<T>
    requires limit > 0
    decreases |full| - offset
  {
    var page := PageAt(full, offset, limit);
    page.items + if page.hasMore then Walk(full, offset + limit, limit) else []
  }

  /** From any offset within the array the walk delivers the rest, each element once and in order. */
  lemma {:induction false} WalkDelivers<T>(full: seq<T>, offset: nat, limit: nat)
    requires limit > 0 && offset <= |full|
    ensures Walk(full, offset, limit) == full[offset..]
    decreases |full| - offset
  {
    if offset + limit < |full| {
      WalkDelivers(full, offset + limit, limit);
      assert full[offset..offset + limit] + full[offset + limit..] == full[offset..];
    }
  }

  /** The whole array, from the start. */
  lemma WalkIsWhole<T>(full: seq<T>, limit: nat)
    requires limit > 0
    ensures Walk(full, 0, limit) == full
  {
    WalkDelivers(full, 0, limit);
  }

  // ----- links

  function NextLink(total: nat, offset: int, limit: int): Option<int> {
    if offset + limit < total then Some(offset + limit) else None
  }

  function PrevLink(offset: int, limit: int): Option<int> {
    if offset > 0 then Some(if offset - limit < 0 then 0 else offset - limit) else None
  }

  /** When the link offers a next page just as the page says there is more; only negative offsets can spoil it. */
  lemma NextLinkIsHasMore<T>(full: seq<T>, offset: int, limit: int)
    requires limit > 0
    ensures (NextLink(|full|, offset, limit).Some? <==> PageAt(full, offset, limit).hasMore)
       <==> (offset >= 0 || limit < |full| || offset + limit >= |full|)
  {
  }

  /** Prev undoes next; next undoes prev exactly when prev did not stop short at zero. */
  lemma LinksInvert(total: nat, offset: int, limit: int)
    requires limit > 0
    ensures offset >= 0 && NextLink(total, offset, limit).Some? ==>
      PrevLink(NextLink(total, offset, limit).value, limit) == Some(offset)
    ensures offset <= 0 ==> PrevLink(offset, limit) == None
    ensures 0 < offset < total ==>
      (NextLink(total, PrevLink(offset, limit).value, limit) == Some(offset) <==> limit <= offset)
  {
  }

  /** The offsets of the walk, and those of following the next links. */
  function WalkOffsets<T>(full: seq<T>, offset: nat, limit: nat): seq<int>
    requires limit > 0
    decreases |full| - offset
  {
    [offset] + if PageAt(full, offset, limit).hasMore then WalkOffsets(full, offset + limit, limit) else []
  }

  function LinkOffsets(total: nat, offset: int, limit: int): seq<int>
    requires limit > 0
    decreases total - offset
  {
    [offset] + match NextLink(total, offset, limit) case Some(o) => LinkOffsets(total, o, limit) case None => []
  }

  lemma MoreMeans<T>(full: seq<T>, offset: nat, limit: nat)
    requires limit > 0
    ensures PageAt(full, offset, limit).hasMore <==> offset + limit < |full|
  {
  }

  lemma {:induction false} LinksFollowWalk<T>(full: seq<T>, offset: nat, limit: nat)
    requires limit > 0
    ensures LinkOffsets(|full|, offset, limit) == WalkOffsets(full, offset, limit)
    decreases |full| - offset
  {
    hide PageAt;
    MoreMeans(full, offset, limit);
    if offset + limit < |full| {
      LinksFollowWalk(full, offset + limit, limit);
      assert NextLink(|full|, offset, limit) == Some(offset + limit);
    }
  }
}
