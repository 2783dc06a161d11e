/** The page list under the search results and the "min-max" label of the
    records on the current page. */
module Pagination {
  import opened Common
  import opened Entities

  /** How many page numbers the list shows around the current page. */
  const PageNumberLimit: int := 5

  /** Enumerable.Range(start, count), as page numbers. */
  function Run(start: int, count: nat): (r: seq<PageItem>)
    ensures |r| == count
    ensures forall i :: 0 <= i < count ==> r[i] == PageNo(start + i)
  {
    seq(count, i requires 0 <= i < count => PageNo(start + i))
  }

  /** The first and last page of the run shown around the current page when
      there are more pages than fit. The run always has exactly maxVisible
      pages, all of them real pages, and holds the current page when that is
      a real page; when the current page is far enough from both ends it sits
      in the middle (one page more after it than before it for an even width). */
  function Window(totalPages: int, currentPage: int, maxVisible: int): (w: (int, int))
    requires maxVisible >= 1
    ensures totalPages > maxVisible ==>
              1 <= w.0 <= w.1 <= totalPages && w.1 - w.0 + 1 == maxVisible
    ensures totalPages > maxVisible && 1 <= currentPage <= totalPages ==> w.0 <= currentPage <= w.1
    ensures totalPages > maxVisible && 1 <= currentPage - maxVisible / 2
            && currentPage + (maxVisible + 1) / 2 - 1 <= totalPages
            ==> w == (currentPage - maxVisible / 2, currentPage + (maxVisible + 1) / 2 - 1)
  {
    assert maxVisible / 2 + (maxVisible + 1) / 2 == maxVisible;
    var start := Max(1, currentPage - maxVisible / 2);
    var end := Min(totalPages, currentPage + (maxVisible + 1) / 2 - 1);
    if end - start < maxVisible - 1 then
      if start > 1 then (Max(1, end - maxVisible + 1), end)
      else (start, Min(totalPages, start + maxVisible - 1))
    else (start, end)
  }

  /** Page 1 and a marker when the run starts after it. */
  function Leading(start: int): seq<PageItem>
  {
    if start > 1 then [PageNo(1)] + (if start > 2 then [Ellipsis] else []) else []
  }

  /** A marker and the last page when the run ends before it. */
  function Trailing(end: int, totalPages: int): seq<PageItem>
  {
    if end < totalPages then (if end < totalPages - 1 then [Ellipsis] else []) + [PageNo(totalPages)] else []
  }

  /** The page list: every page when they all fit, otherwise the window with
      the first and last page and "..." where pages are left out. */
  function PageNumbers(totalPages: nat, currentPage: int, maxVisible: int): seq<PageItem>
    requires maxVisible >= 1
  {
    if totalPages <= maxVisible then Run(1, totalPages)
    else
      var w := Window(totalPages, currentPage, maxVisible);
      Windowed(w.0, w.1, totalPages)
  }

  /** The pages from start to end, with the first and last page and the
      markers around them. */
  function Windowed(start: int, end: int, totalPages: int): seq<PageItem>
    requires start <= end
  {
    Leading(start) + Run(start, end - start + 1) + Trailing(end, totalPages)
  }

  /** GeneratePageNumbers. Its one caller passes a page count computed from a
      record count and the limit 5. */
  method GeneratePageNumbers(totalPages: int, currentPage: int, maxVisiblePages: int)
    returns (pageNumbers: seq<PageItem>)
    requires totalPages >= 0 && maxVisiblePages >= 1
    ensures pageNumbers == PageNumbers(totalPages, currentPage, maxVisiblePages)
  {
    if totalPages <= maxVisiblePages {
      return Run(1, totalPages);
    }

    var startPage := Max(1, currentPage - maxVisiblePages / 2);
    var endPage := Min(totalPages, currentPage + (maxVisiblePages + 1) / 2 - 1);

    if endPage - startPage < maxVisiblePages - 1 {
      if startPage > 1 {
        startPage := Max(1, endPage - maxVisiblePages + 1);
      } else {
        endPage := Min(totalPages, startPage + maxVisiblePages - 1);
      }
    }
    assert (startPage, endPage) == Window(totalPages, currentPage, maxVisiblePages);

    pageNumbers := [];

    if startPage > 1 {
      pageNumbers := pageNumbers + [PageNo(1)];
      if startPage > 2 {
        pageNumbers := pageNumbers + [Ellipsis];
      }
    }
    assert pageNumbers == Leading(startPage);

    pageNumbers := pageNumbers + Run(startPage, endPage - startPage + 1);
    ghost var head := pageNumbers;

    if endPage < totalPages {
      if endPage < totalPages - 1 {
        pageNumbers := pageNumbers + [Ellipsis];
      }
      pageNumbers := pageNumbers + [PageNo(totalPages)];
    }
    assert pageNumbers == head + Trailing(endPage, totalPages);
    assert pageNumbers == Windowed(startPage, endPage, totalPages);
    assert PageNumbers(totalPages, currentPage, maxVisiblePages) == Windowed(startPage, endPage, totalPages);
  }

  // -----------------------------------------------------------------------
  // What a page list looks like.
  // -----------------------------------------------------------------------

  /** A "..." marker is never the first or the last item. */
  ghost predicate MarkersInside(r: seq<PageItem>)
  {
    forall i :: 0 <= i < |r| && r[i].Ellipsis? ==> 0 < i < |r| - 1
  }

  /** A "..." marker is followed by a page number. */
  ghost predicate MarkersApart(r: seq<PageItem>)
  {
    forall i, j :: 0 <= i < j < |r| && j == i + 1 && r[i].Ellipsis? ==> r[j].PageNo?
  }

  /** Neighbouring page numbers are consecutive. */
  ghost predicate NumbersConsecutive(r: seq<PageItem>)
  {
    forall i, j :: 0 <= i < j < |r| && j == i + 1 && r[i].PageNo? && r[j].PageNo? ==> r[i].n + 1 == r[j].n
  }

  /** Page numbers grow at least as fast as their positions: they strictly
      increase, and every marker between two of them stands for at least one
      page that is not listed. */
  ghost predicate NumbersSpread(r: seq<PageItem>)
  {
    forall i, j :: 0 <= i < j < |r| && r[i].PageNo? && r[j].PageNo? ==> r[j].n - r[i].n >= j - i
  }

  /** The shape of a page list. */
  ghost predicate Spaced(r: seq<PageItem>)
  {
    MarkersInside(r) && MarkersApart(r) && NumbersConsecutive(r) && NumbersSpread(r)
  }

  /** Every page number in the list is a real page. */
  predicate WithinPages(r: seq<PageItem>, totalPages: int)
  {
    forall i :: 0 <= i < |r| && r[i].PageNo? ==> 1 <= r[i].n <= totalPages
  }

  /** In a spaced list a marker sits between two page numbers that are not
      consecutive: it always hides at least one page. */
  lemma MarkerHidesPages(r: seq<PageItem>, i: int)
    requires Spaced(r) && 0 <= i < |r| && r[i].Ellipsis?
    ensures 0 < i < |r| - 1
    ensures r[i - 1].PageNo? && r[i + 1].PageNo? && r[i - 1].n + 1 < r[i + 1].n
  {
    assert 0 < i < |r| - 1;
    assert r[i + 1].PageNo?;
    assert r[i + 1].n - r[i - 1].n >= 2;
  }

  lemma RunSpaced(start: int, count: nat)
    ensures Spaced(Run(start, count))
  {
  }

  /** Joining two spaced lists where the first ends one page before the second starts. */
  lemma JoinAdjacent(a: seq<PageItem>, b: seq<PageItem>)
    requires Spaced(a) && Spaced(b) && |a| > 0 && |b| > 0
    requires a[|a| - 1].PageNo? && b[0].PageNo? && a[|a| - 1].n + 1 == b[0].n
    ensures Spaced(a + b)
  {
    var r := a + b;
    var m := |a|;
    assert MarkersInside(r) by {
      forall i | 0 <= i < |r| && r[i].Ellipsis? ensures 0 < i < |r| - 1 {
        if i < m {
          assert a[i].Ellipsis?;
        } else {
          assert b[i - m].Ellipsis?;
        }
      }
    }
    assert MarkersApart(r) by {
      forall i, j | 0 <= i < j < |r| && j == i + 1 && r[i].Ellipsis? ensures r[j].PageNo? {
        if j < m {
          assert a[i] == r[i] && a[j] == r[j];
        } else if i >= m {
          assert b[i - m] == r[i] && b[j - m] == r[j];
        }
      }
    }
    assert NumbersConsecutive(r) by {
      forall i, j | 0 <= i < j < |r| && j == i + 1 && r[i].PageNo? && r[j].PageNo? ensures r[i].n + 1 == r[j].n {
        if j < m {
          assert a[i] == r[i] && a[j] == r[j];
        } else if i >= m {
          assert b[i - m] == r[i] && b[j - m] == r[j];
        }
      }
    }
    assert NumbersSpread(r) by {
      forall i, j | 0 <= i < j < |r| && r[i].PageNo? && r[j].PageNo? ensures r[j].n - r[i].n >= j - i {
        if j < m {
          assert a[i] == r[i] && a[j] == r[j];
        } else if i >= m {
          assert b[i - m] == r[i] && b[j - m] == r[j];
        } else {
          assert a[i] == r[i] && b[j - m] == r[j];
          assert a[m - 1].n - a[i].n >= m - 1 - i;
          assert b[j - m].n - b[0].n >= j - m;
        }
      }
    }
  }

  /** Joining two spaced lists with a marker where pages are left out between them. */
  lemma JoinGap(a: seq<PageItem>, b: seq<PageItem>)
    requires Spaced(a) && Spaced(b) && |a| > 0 && |b| > 0
    requires a[|a| - 1].PageNo? && b[0].PageNo? && a[|a| - 1].n + 1 < b[0].n
    ensures Spaced(a + [Ellipsis] + b)
  {
    var r := a + [Ellipsis] + b;
    var m := |a|;
    assert MarkersInside(r) by {
      forall i | 0 <= i < |r| && r[i].Ellipsis? ensures 0 < i < |r| - 1 {
        if i < m {
          assert a[i].Ellipsis?;
        } else if i > m {
          assert b[i - m - 1].Ellipsis?;
        }
      }
    }
    assert MarkersApart(r) by {
      forall i, j | 0 <= i < j < |r| && j == i + 1 && r[i].Ellipsis? ensures r[j].PageNo? {
        if j < m {
          assert a[i] == r[i] && a[j] == r[j];
        } else if i > m {
          assert b[i - m - 1] == r[i] && b[j - m - 1] == r[j];
        } else if i == m {
          assert r[j] == b[0];
        }
      }
    }
    assert NumbersConsecutive(r) by {
      forall i, j | 0 <= i < j < |r| && j == i + 1 && r[i].PageNo? && r[j].PageNo? ensures r[i].n + 1 == r[j].n {
        if j < m {
          assert a[i] == r[i] && a[j] == r[j];
        } else if i > m {
          assert b[i - m - 1] == r[i] && b[j - m - 1] == r[j];
        }
      }
    }
    assert NumbersSpread(r) by {
      forall i, j | 0 <= i < j < |r| && r[i].PageNo? && r[j].PageNo? ensures r[j].n - r[i].n >= j - i {
        if j < m {
          assert a[i] == r[i] && a[j] == r[j];
        } else if i > m {
          assert b[i - m - 1] == r[i] && b[j - m - 1] == r[j];
        } else {
          assert i < m && j > m;
          assert a[i] == r[i] && b[j - m - 1] == r[j];
          assert a[m - 1].n - a[i].n >= m - 1 - i;
          assert b[j - m - 1].n - b[0].n >= j - m - 1;
        }
      }
    }
  }

  /** The run with its leading part is spaced. */
  lemma LeadingRunSpaced(s: int, count: nat)
    requires s >= 1 && count >= 1
    ensures Spaced(Leading(s) + Run(s, count))
  {
    var run := Run(s, count);
    RunSpaced(s, count);
    if s == 2 {
      JoinAdjacent([PageNo(1)], run);
      assert Leading(s) == [PageNo(1)];
    } else if s > 2 {
      JoinGap([PageNo(1)], run);
      assert Leading(s) + run == [PageNo(1)] + [Ellipsis] + run;
    } else {
      assert Leading(s) + run == run;
    }
  }

  /** The parts of the list around a run of real pages: page 1 first, the
      run's last page before the trailing part, and the trailing part as the
      run's end decides. */
  lemma WindowedParts(start: int, end: int, totalPages: int)
    requires 1 <= start <= end <= totalPages
    ensures var head := Leading(start) + Run(start, end - start + 1);
            var r := Windowed(start, end, totalPages);
            && |head| >= 1 && head[0] == PageNo(1) && head[|head| - 1] == PageNo(end)
            && WithinPages(head, totalPages)
            && (end == totalPages ==> r == head)
            && (end == totalPages - 1 ==> r == head + [PageNo(totalPages)])
            && (end < totalPages - 1 ==> r == head + [Ellipsis] + [PageNo(totalPages)])
  {
    var run := Run(start, end - start + 1);
    var head := Leading(start) + run;
    assert run[|run| - 1] == PageNo(end);
    assert head[|head| - 1] == run[|run| - 1];
  }

  /** The page list is spaced. */
  lemma PageNumbersSpaced(totalPages: nat, currentPage: int, maxVisible: int)
    requires maxVisible >= 1
    ensures Spaced(PageNumbers(totalPages, currentPage, maxVisible))
  {
    if totalPages <= maxVisible {
      RunSpaced(1, totalPages);
    } else {
      var w := Window(totalPages, currentPage, maxVisible);
      WindowSpaced(w.0, w.1, totalPages);
    }
  }

  /** The list around any run of real pages is spaced. */
  lemma WindowSpaced(start: int, end: int, totalPages: int)
    requires 1 <= start <= end <= totalPages
    ensures Spaced(Windowed(start, end, totalPages))
  {
    var run := Run(start, end - start + 1);
    var head := Leading(start) + run;
    LeadingRunSpaced(start, end - start + 1);
    assert head[|head| - 1] == run[|run| - 1];
    TrailingSpaced(head, end, totalPages);
  }

  /** A spaced list that ends at page `end` stays spaced when the trailing
      part up to the last page is added. */
  lemma TrailingSpaced(head: seq<PageItem>, end: int, totalPages: int)
    requires Spaced(head) && |head| > 0 && head[|head| - 1] == PageNo(end) && end <= totalPages
    ensures Spaced(head + Trailing(end, totalPages))
  {
    var last := [PageNo(totalPages)];
    if end == totalPages - 1 {
      assert head + Trailing(end, totalPages) == head + last;
      assert Spaced(head + last) by {
        RunSpaced(totalPages, 1);
        assert Run(totalPages, 1) == last;
        JoinAdjacent(head, last);
      }
    } else if end < totalPages - 1 {
      assert head + Trailing(end, totalPages) == head + [Ellipsis] + last;
      assert Spaced(head + [Ellipsis] + last) by {
        RunSpaced(totalPages, 1);
        assert Run(totalPages, 1) == last;
        JoinGap(head, last);
      }
    } else {
      assert head + Trailing(end, totalPages) == head;
    }
  }

  /** The page list holds the current page when it is a real page. */
  lemma PageNumbersHoldCurrent(totalPages: nat, currentPage: int, maxVisible: int)
    requires maxVisible >= 1 && 1 <= currentPage <= totalPages
    ensures PageNo(currentPage) in PageNumbers(totalPages, currentPage, maxVisible)
  {
    var r := PageNumbers(totalPages, currentPage, maxVisible);
    if totalPages <= maxVisible {
      assert r[currentPage - 1] == PageNo(currentPage);
    } else {
      var w := Window(totalPages, currentPage, maxVisible);
      var run := Run(w.0, w.1 - w.0 + 1);
      WindowedParts(w.0, w.1, totalPages);
      assert run[currentPage - w.0] == PageNo(currentPage);
      assert r[|Leading(w.0)| + currentPage - w.0] == PageNo(currentPage);
    }
  }

  /** The page list has the shape of a pager over totalPages pages: spaced,
      every number a real page, page 1 first and the last page last, the
      current page present when it is a real page, and never more than four
      items beyond the window width. When all pages fit they are all listed. */
  lemma PageNumbersShape(totalPages: nat, currentPage: int, maxVisible: int)
    requires maxVisible >= 1
    ensures var r := PageNumbers(totalPages, currentPage, maxVisible);
            && Spaced(r)
            && WithinPages(r, totalPages)
            && (totalPages == 0 <==> r == [])
            && (totalPages >= 1 ==> r[0] == PageNo(1) && r[|r| - 1] == PageNo(totalPages))
            && (1 <= currentPage <= totalPages ==> PageNo(currentPage) in r)
            && (totalPages <= maxVisible ==> forall p :: 1 <= p <= totalPages <==> PageNo(p) in r)
            && |r| <= maxVisible + 4
  {
    PageNumbersSpaced(totalPages, currentPage, maxVisible);
    if 1 <= currentPage <= totalPages {
      PageNumbersHoldCurrent(totalPages, currentPage, maxVisible);
    }
    if totalPages <= maxVisible {
      AllPagesShape(totalPages);
    } else {
      var w := Window(totalPages, currentPage, maxVisible);
      WindowedShape(w.0, w.1, totalPages);
    }
  }

  /** The list of all pages names each real page and nothing else. */
  lemma AllPagesShape(totalPages: nat)
    ensures var r := Run(1, totalPages);
            && WithinPages(r, totalPages)
            && (totalPages == 0 <==> r == [])
            && (totalPages >= 1 ==> r[0] == PageNo(1) && r[|r| - 1] == PageNo(totalPages))
            && (forall p :: 1 <= p <= totalPages <==> PageNo(p) in r)
  {
    var r := Run(1, totalPages);
    forall p | 1 <= p <= totalPages ensures PageNo(p) in r {
      assert r[p - 1] == PageNo(p);
    }
  }

  /** The list around a run of real pages starts at page 1, ends at the last
      page, names real pages only and adds at most four items to the run. */
  lemma WindowedShape(start: int, end: int, totalPages: int)
    requires 1 <= start <= end <= totalPages
    ensures var r := Windowed(start, end, totalPages);
            && WithinPages(r, totalPages)
            && r != [] && r[0] == PageNo(1) && r[|r| - 1] == PageNo(totalPages)
            && |r| <= end - start + 5
  {
    WindowedParts(start, end, totalPages);
  }

  // -----------------------------------------------------------------------
  // Page count and the records label.
  // -----------------------------------------------------------------------

  /** Math.Ceiling(records / pageSize), computed exactly. */
  function PageCount(totalRecords: nat, pageSize: int): (n: nat)
    requires pageSize > 0
    ensures (n - 1) * pageSize < totalRecords <= n * pageSize || (n == 0 && totalRecords == 0)
  {
    if totalRecords % pageSize == 0 then totalRecords / pageSize else totalRecords / pageSize + 1
  }

  /** The first and last record number shown for a page: the last is the end
      of a full page, except on the last page, where it is the record count. */
  function RecordRange(pageNumber: int, pageSize: int, totalRecords: int, pages: int): (int, int)
  {
    ((pageNumber - 1) * pageSize + 1,
     if pageNumber == pages then totalRecords else pageNumber * pageSize)
  }

  /** "max" when the page shows one record number, "min-max" otherwise. */
  function RecordsLabel(pageNumber: int, pageSize: int, totalRecords: int, pages: int): string
  {
    var range := RecordRange(pageNumber, pageSize, totalRecords, pages);
    if range.0 == range.1 then IntToString(range.1)
    else IntToString(range.0) + "-" + IntToString(range.1)
  }

  /** UpdatePagination: writes the page list and the records label into the
      search model and leaves every other field as it was. */
  method UpdatePagination(searchModel: SearchModel) returns (updated: SearchModel)
    requires searchModel.pageSize > 0 && searchModel.totalRecords >= 0
    ensures var pages := PageCount(searchModel.totalRecords, searchModel.pageSize);
            updated == searchModel.(
              pageList := PageNumbers(pages, searchModel.pageNumber, PageNumberLimit),
              currentRecords := Some(RecordsLabel(searchModel.pageNumber, searchModel.pageSize,
                                                  searchModel.totalRecords, pages)))
  {
    var pageNumberLimit := PageNumberLimit;
    var currentPage := searchModel.pageNumber;
    var numberOfPages := PageCount(searchModel.totalRecords, searchModel.pageSize);

    var pageList := GeneratePageNumbers(numberOfPages, currentPage, pageNumberLimit);
    updated := searchModel.(pageList := pageList);

    var min := (currentPage - 1) * searchModel.pageSize + 1;
    var max := currentPage * searchModel.pageSize;
    if currentPage == numberOfPages {
      max := searchModel.totalRecords;
    }

    if min == max {
      updated := updated.(currentRecords := Some(IntToString(max)));
    } else {
      updated := updated.(currentRecords := Some(IntToString(min) + "-" + IntToString(max)));
    }
  }

  lemma MulMonotone(a: int, b: int, c: nat)
    requires a <= b
    ensures a * c <= b * c
  {
    assert b * c - a * c == (b - a) * c;
  }

  /** On a real page the label's range covers exactly the records that page
      shows: as many as Skip((P-1)*S).Take(S) keeps of the full result. */
  lemma RecordRangeMatchesPage<T>(records: seq<T>, pageNumber: int, pageSize: int)
    requires pageSize > 0
    requires 1 <= pageNumber <= PageCount(|records|, pageSize)
    ensures var pages := PageCount(|records|, pageSize);
            var range := RecordRange(pageNumber, pageSize, |records|, pages);
            1 <= range.0 <= range.1 <= |records|
            && |Take(Skip(records, (pageNumber - 1) * pageSize), pageSize)| == range.1 - range.0 + 1
  {
    var n := PageCount(|records|, pageSize);
    var skip := (pageNumber - 1) * pageSize;
    assert pageNumber * pageSize == skip + pageSize;
    MulMonotone(0, pageNumber - 1, pageSize);
    assert (n - 1) * pageSize < |records|;
    if pageNumber < n {
      MulMonotone(pageNumber, n - 1, pageSize);
      assert skip + pageSize < |records|;
    } else {
      assert |records| <= skip + pageSize;
    }
    SkipTakeWindow(records, skip, pageSize);
  }

  /** The label names its range as it is, and splits at '-' back into the two
      record numbers (a single number when the range has one). */
  lemma RecordsLabelParses(pageNumber: int, pageSize: int, totalRecords: nat)
    requires pageSize > 0 && pageNumber >= 1
    ensures var pages := PageCount(totalRecords, pageSize);
            var range := RecordRange(pageNumber, pageSize, totalRecords, pages);
            var text := RecordsLabel(pageNumber, pageSize, totalRecords, pages);
            && 1 <= range.0 && 1 <= range.1
            && (range.0 == range.1 ==> text == NatToString(range.1))
            && (range.0 != range.1 ==> Split(text, '-') == [NatToString(range.0), NatToString(range.1)])
            && (forall k :: 0 <= k < |Split(text, '-')| ==> IsDigitString(Split(text, '-')[k]))
            && ParseNat(Split(text, '-')[0]) == range.0
            && ParseNat(Split(text, '-')[|Split(text, '-')| - 1]) == range.1
  {
    var pages := PageCount(totalRecords, pageSize);
    var range := RecordRange(pageNumber, pageSize, totalRecords, pages);
    RecordRangePositive(pageNumber, pageSize, totalRecords);
    var a, b := NatToString(range.0), NatToString(range.1);
    ParseNatToString(range.0);
    ParseNatToString(range.1);
    if range.0 == range.1 {
      SingleLabelSplits(range.1);
    } else {
      PairLabelSplits(range.0, range.1);
    }
  }

  lemma RecordRangePositive(pageNumber: int, pageSize: int, totalRecords: nat)
    requires pageSize > 0 && pageNumber >= 1
    ensures var range := RecordRange(pageNumber, pageSize, totalRecords, PageCount(totalRecords, pageSize));
            1 <= range.0 && 1 <= range.1
  {
    var pages := PageCount(totalRecords, pageSize);
    MulMonotone(0, pageNumber - 1, pageSize);
    MulMonotone(1, pageNumber, pageSize);
    if pageNumber == pages {
      assert (pages - 1) * pageSize < totalRecords;
    }
  }

  lemma SingleLabelSplits(n: nat)
    ensures Split(NatToString(n), '-') == [NatToString(n)]
  {
    DigitsHaveNoDash(NatToString(n));
    SplitNoSeparator(NatToString(n), '-');
  }

  lemma PairLabelSplits(m: nat, n: nat)
    ensures Split(NatToString(m) + "-" + NatToString(n), '-') == [NatToString(m), NatToString(n)]
  {
    var a, b := NatToString(m), NatToString(n);
    DigitsHaveNoDash(a);
    DigitsHaveNoDash(b);
    SplitAtFirst(a, '-', b);
    SplitNoSeparator(b, '-');
    assert a + "-" + b == a + ['-'] + b;
  }

  predicate IsDigitString(s: string)
  {
    forall i :: 0 <= i < |s| ==> IsDigit(s[i])
  }

  lemma DigitsHaveNoDash(s: string)
    requires IsDigitString(s)
    ensures '-' !in s
  {
    forall i | 0 <= i < |s| ensures s[i] != '-' {
      assert IsDigit(s[i]);
    }
  }

  /** A search over no records still labels its page "1-10". */
  lemma EmptyResultLabel()
    ensures RecordsLabel(1, 10, 0, PageCount(0, 10)) == "1-10"
  {
    assert NatToString(1) == "1";
    assert NatToString(10) == NatToString(1) + [DigitChar(0)];
  }

  /** Page 3 of 47 records in pages of 10 reads "21-30"; the last page, 5,
      reads "41-47"; a last page with one record reads that record alone. */
  lemma LabelExamples()
    ensures RecordsLabel(3, 10, 47, PageCount(47, 10)) == "21-30"
    ensures RecordsLabel(5, 10, 47, PageCount(47, 10)) == "41-47"
    ensures RecordsLabel(5, 10, 41, PageCount(41, 10)) == "41"
  {
    assert NatToString(21) == NatToString(2) + [DigitChar(1)];
    assert NatToString(30) == NatToString(3) + [DigitChar(0)];
    assert NatToString(41) == NatToString(4) + [DigitChar(1)];
    assert NatToString(47) == NatToString(4) + [DigitChar(7)];
  }
}
