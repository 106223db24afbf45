/** Cutting a list into pages. */
module Paging {
  import opened Common

  newtype i32 = x: int | -0x8000_0000 <= x <= 0x7FFF_FFFF

  /** Largest index on a 64-bit platform and on 32-bit WebAssembly. */
  const NATIVE_USIZE_MAX: nat := U64_MAX
  const WASM_USIZE_MAX: nat := U32_MAX

  datatype Pagination = Pagination(pageNumber: i32, showNumber: i32) {
    function Normalized(): Pagination {
      Pagination(if pageNumber < 0 then 0 else pageNumber, if showNumber <= 0 then 200 else showNumber)
    }
  }

  function SaturatingMul(a: nat, b: nat, usizeMax: nat): nat {
    if a * b <= usizeMax then a * b else usizeMax
  }

  function Skip<T>(items: seq<T>, n: nat): seq<T> {
    if n <= |items| then items[n..] else []
  }

  function Take<T>(items: seq<T>, n: nat): seq<T> {
    if n <= |items| then items[..n] else items
  }

  /** The page the code cuts out; the start of the page is a saturating product. */
  function Paginate<T>(items: seq<T>, pagination: Pagination, usizeMax: nat): seq<T> {
    var p := pagination.Normalized();
    Take(Skip(items, SaturatingMul(p.pageNumber as nat, p.showNumber as nat, usizeMax)), p.showNumber as nat)
  }

  /** Page `page` of pages of `size`. */
  function Page<T>(items: seq<T>, page: nat, size: nat): seq<T> {
    Take(Skip(items, page * size), size)
  }

  /** Saturation is harmless: past the largest index there are no items on any platform. */
  lemma PaginateIsPage<T>(items: seq<T>, pagination: Pagination, usizeMax: nat)
    requires |items| <= usizeMax
    ensures var p := pagination.Normalized();
      Paginate(items, pagination, usizeMax) == Page(items, p.pageNumber as nat, p.showNumber as nat)
  {
  }

  /** The page that numbers below zero and sizes below one still ask for. */
  function PageAsked(pageNumber: i32): nat {
    if pageNumber >= 0 then pageNumber as nat else 0
  }

  function SizeAsked(showNumber: i32): nat {
    if showNumber >= 1 then showNumber as nat else 200
  }

  /** What a page holds: with `size` items to a page, those from `page * size` on, at most
      `size` of them.  A number from 0 up and a size from 1 up are kept as they are, any other
      number means 0 and any other size 200. */
  lemma PaginateCuts<T>(items: seq<T>, pageNumber: i32, showNumber: i32, usizeMax: nat)
    requires |items| <= usizeMax
    ensures var page := Paginate(items, Pagination(pageNumber, showNumber), usizeMax);
      var start, size := PageAsked(pageNumber) * SizeAsked(showNumber), SizeAsked(showNumber);
      && |page| == Max(0, Min(size, |items| - start))
      && forall i :: 0 <= i < |page| ==> page[i] == items[start + i]
  {
    PaginateIsPage(items, Pagination(pageNumber, showNumber), usizeMax);
  }

  /** The first `count` pages, one after the other. */
  function Pages<T>(items: seq<T>, count: nat, size: nat): seq<T> {
    if count == 0 then [] else Pages(items, count - 1, size) + Page(items, count - 1, size)
  }

  lemma TakeThenTake<T>(items: seq<T>, start: nat, size: nat)
    ensures Take(items, start) + Take(Skip(items, start), size) == Take(items, start + size)
  {
    if start <= |items| {
      assert items == items[..start] + items[start..];
      if start + size <= |items| {
        assert items[..start + size] == items[..start] + items[start..][..size];
      }
    }
  }

  /** Reading page after page reads the list from its start, nothing skipped or repeated. */
  lemma {:induction false} PagesArePrefix<T>(items: seq<T>, count: nat, size: nat)
    ensures Pages(items, count, size) == Take(items, count * size)
  {
    if count > 0 {
      PagesArePrefix(items, count - 1, size);
      TakeThenTake(items, (count - 1) * size, size);
      MulStep(count, size);
    }
  }

  /** The answers to asking for the first `count` pages. */
  function Paginated<T>(items: seq<T>, count: nat, showNumber: i32, usizeMax: nat): seq<T>
    requires count <= 0x8000_0000
  {
    if count == 0 then [] else
    Paginated(items, count - 1, showNumber, usizeMax) + Paginate(items, Pagination((count - 1) as i32, showNumber), usizeMax)
  }

  /** They are the list from its start, nothing skipped or repeated. */
  lemma {:induction false} PaginatedIsPrefix<T>(items: seq<T>, count: nat, showNumber: i32, usizeMax: nat)
    requires count <= 0x8000_0000 && |items| <= usizeMax
    ensures Paginated(items, count, showNumber, usizeMax)
         == items[..Min(|items|, count * SizeAsked(showNumber))]
  {
    PagesArePrefix(items, count, SizeAsked(showNumber));
    PaginatedIsPages(items, count, showNumber, usizeMax);
  }

  lemma {:induction false} PaginatedIsPages<T>(items: seq<T>, count: nat, showNumber: i32, usizeMax: nat)
    requires count <= 0x8000_0000 && |items| <= usizeMax
    ensures Paginated(items, count, showNumber, usizeMax) == Pages(items, count, SizeAsked(showNumber))
  {
    if count > 0 {
      PaginatedIsPages(items, count - 1, showNumber, usizeMax);
      PaginateIsPage(items, Pagination((count - 1) as i32, showNumber), usizeMax);
    }
  }

  /** Enough pages give the whole list. */
  lemma PagesCover<T>(items: seq<T>, count: nat, size: nat)
    requires |items| <= count * size
    ensures Pages(items, count, size) == items
  {
    PagesArePrefix(items, count, size);
  }
}
