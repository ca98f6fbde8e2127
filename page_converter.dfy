/**
  `PageConverter`: the catalog's paged-response envelope, built from a page of entities and the
  DTOs already mapped from its content, with the page's sort rendered as text.
 */
module PageConverter {
  import opened Wrappers

  datatype Direction = Asc | Desc

  /** `Sort.Direction.toString()`. */
  function DirectionName(d: Direction): string {
    match d
    case Asc => "ASC"
    case Desc => "DESC"
  }

  datatype Order = Order(property: string, direction: Direction)

  /** A page as the repository returns it; its sort is null or a list of orders, empty when unsorted. */
  datatype Page<E> = Page(
    content: seq<E>,
    number: int,
    size: int,
    totalElements: int,
    totalPages: int,
    sort: Option<seq<Order>>)

  datatype PageMetadata = PageMetadata(number: int, size: int, totalElements: int, totalPages: int, sort: string)

  datatype PageResponse<D> = PageResponse(content: seq<D>, page: PageMetadata)

  function FormatOrder(o: Order): string {
    o.property + "," + DirectionName(o.direction)
  }

  function FormatOrders(orders: seq<Order>): (parts: seq<string>)
    ensures |parts| == |orders|
    ensures forall i :: 0 <= i < |orders| ==> parts[i] == FormatOrder(orders[i])
  {
    if orders == [] then [] else [FormatOrder(orders[0])] + FormatOrders(orders[1..])
  }

  /** `Collectors.joining(sep)`. */
  function Join(parts: seq<string>, sep: char): (r: string) {
    if parts == [] then [] else if |parts| == 1 then parts[0] else parts[0] + [sep] + Join(parts[1..], sep)
  }

  /** Cut a string at every separator, keeping empty pieces: the inverse of `Join`. */
  function Split(s: string, sep: char): (parts: seq<string>)
    ensures |parts| >= 1
  {
    if s == [] then [[]]
    else
      var rest := Split(s[1..], sep);
      if s[0] == sep then [[]] + rest else [[s[0]] + rest[0]] + rest[1..]
  }

  lemma {:induction false} SplitWithoutSeparator(p: string, sep: char)
    requires sep !in p
    ensures Split(p, sep) == [p]
  {
    if p != [] {
      SplitWithoutSeparator(p[1..], sep);
      assert [p[0]] + p[1..] == p;
    }
  }

  lemma {:induction false} SplitAtFirst(p: string, sep: char, t: string)
    requires sep !in p
    ensures Split(p + [sep] + t, sep) == [p] + Split(t, sep)
  {
    if p == [] {
      assert p + [sep] + t == [sep] + t;
      assert ([sep] + t)[1..] == t;
    } else {
      var s := p + [sep] + t;
      assert s[0] == p[0] && s[1..] == p[1..] + [sep] + t;
      SplitAtFirst(p[1..], sep, t);
      assert [p[0]] + p[1..] == p;
    }
  }

  /** Joining pieces that do not contain the separator can be undone by splitting. */
  lemma {:induction false} SplitJoin(parts: seq<string>, sep: char)
    requires parts != []
    requires forall i :: 0 <= i < |parts| ==> sep !in parts[i]
    ensures Split(Join(parts, sep), sep) == parts
  {
    if |parts| == 1 {
      SplitWithoutSeparator(parts[0], sep);
    } else {
      SplitJoin(parts[1..], sep);
      SplitAtFirst(parts[0], sep, Join(parts[1..], sep));
      assert [parts[0]] + parts[1..] == parts;
    }
  }

  /** A joined string ends with its last piece, so it never ends with a separator after a nonempty piece. */
  lemma {:induction false} JoinEndsWithLast(parts: seq<string>, sep: char)
    requires parts != []
    ensures var r := Join(parts, sep); var last := parts[|parts| - 1];
            |r| >= |last| && r[|r| - |last|..] == last
  {
    if |parts| > 1 {
      JoinEndsWithLast(parts[1..], sep);
    }
  }

  /** `formatSort`. */
  function FormatSort(sort: Option<seq<Order>>): (r: string)
    ensures sort.None? || sort.value == [] ==> r == ""
  {
    if sort.None? || sort.value == [] then "" else Join(FormatOrders(sort.value), ';')
  }

  /** The rendered sort lists every order, as `property,DIRECTION`, in order: splitting at ';' gives
      them back whenever no property name contains ';'. */
  lemma FormatSortLists(orders: seq<Order>)
    requires orders != []
    requires forall i :: 0 <= i < |orders| ==> ';' !in orders[i].property
    ensures Split(FormatSort(Some(orders)), ';') == FormatOrders(orders)
  {
    var parts := FormatOrders(orders);
    forall i | 0 <= i < |parts|
      ensures ';' !in parts[i]
    {
      OrderWithoutSemicolon(orders[i]);
    }
    SplitJoin(parts, ';');
  }

  lemma OrderWithoutSemicolon(o: Order)
    requires ';' !in o.property
    ensures ';' !in FormatOrder(o)
  {
    var tail := "," + DirectionName(o.direction);
    assert forall k :: 0 <= k < |tail| ==> tail[k] != ';';
    assert FormatOrder(o) == o.property + tail;
  }

  /** A nonempty rendered sort ends with the last order's direction, never with a separator. */
  lemma FormatSortEnding(orders: seq<Order>)
    requires orders != []
    ensures var r := FormatSort(Some(orders));
            r != [] && r[|r| - 1] != ';' && r[|r| - 1] != ','
  {
    var parts := FormatOrders(orders);
    JoinEndsWithLast(parts, ';');
    var last := parts[|parts| - 1];
    assert last[|last| - 1] == 'C';
  }

  /** `toPageResponse`: the DTOs become the content and the page's numbers are copied. */
  function ToPageResponse<D, E>(dtos: seq<D>, page: Page<E>): (r: PageResponse<D>)
    ensures r.content == dtos
    ensures r.page.number == page.number && r.page.size == page.size
    ensures r.page.totalElements == page.totalElements && r.page.totalPages == page.totalPages
    ensures r.page.sort == FormatSort(page.sort)
  {
    PageResponse(dtos, PageMetadata(page.number, page.size, page.totalElements, page.totalPages, FormatSort(page.sort)))
  }
}
