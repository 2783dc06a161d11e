/** Shared vocabulary of the ledger model: optional values, the two exception
    kinds the services throw, the Guid stand-in, and the small sequence and
    string helpers the validators and the pagination label are built from. */
module Common {

  /** A nullable value (`string?`, `decimal?`, `DateTime?`, an enum `?`). */
  datatype Option<+T> = None | Some(value: T)

  /** The two exceptions the core throws: ArgumentNullException for a missing
      request object, ArgumentException for failed field validation. */
  datatype Error = NullArgument(message: string) | InvalidArgument(message: string)

  /** A value, or the exception thrown instead of returning it. */
  datatype Result<+T> = Ok(value: T) | Err(error: Error)

  /** A void operation that either returns or throws. */
  datatype Outcome = Pass | Fail(error: Error)

  /** A Guid is an opaque identifier; 0 stands for Guid.Empty. */
  type Guid = nat

  const EmptyGuid: Guid := 0

  function Max(a: int, b: int): int { if a < b then b else a }

  function Min(a: int, b: int): int { if a < b then a else b }

  // ---------------------------------------------------------------------
  // Picking the entries of a fixed list whose flag is set. The validators
  // add one message per failed rule in a fixed order; this is that list.
  // ---------------------------------------------------------------------

  /** The items whose flag is set, in their original order. */
  function Select<T>(items: seq<T>, flags: seq<bool>): (r: seq<T>)
    requires |items| == |flags|
    ensures |r| <= |items|
    ensures forall x :: x in r ==> x in items
  {
    if |items| == 0 then []
    else (if flags[0] then [items[0]] else []) + Select(items[1..], flags[1..])
  }

  lemma {:induction false} SelectMember<T>(items: seq<T>, flags: seq<bool>, x: T)
    requires |items| == |flags|
    ensures x in Select(items, flags) <==> exists i :: 0 <= i < |items| && flags[i] && items[i] == x
  {
    if |items| > 0 {
      SelectMember(items[1..], flags[1..], x);
      if exists i :: 0 <= i < |items| && flags[i] && items[i] == x {
        var i :| 0 <= i < |items| && flags[i] && items[i] == x;
        if i > 0 {
          assert flags[1..][i - 1] && items[1..][i - 1] == x;
        }
      }
      if exists i :: 0 <= i < |items| - 1 && flags[1..][i] && items[1..][i] == x {
        var i :| 0 <= i < |items| - 1 && flags[1..][i] && items[1..][i] == x;
        assert flags[i + 1] && items[i + 1] == x;
      }
    }
  }

  /** With pairwise distinct items, item i is selected exactly when flag i is set. */
  lemma SelectMemberAt<T>(items: seq<T>, flags: seq<bool>, i: nat)
    requires |items| == |flags| && i < |items|
    requires forall j, k :: 0 <= j < k < |items| ==> items[j] != items[k]
    ensures items[i] in Select(items, flags) <==> flags[i]
  {
    SelectMember(items, flags, items[i]);
  }

  /** Nothing is selected exactly when no flag is set. */
  lemma {:induction false} SelectEmpty<T>(items: seq<T>, flags: seq<bool>)
    requires |items| == |flags|
    ensures Select(items, flags) == [] <==> forall i :: 0 <= i < |flags| ==> !flags[i]
  {
    if |items| > 0 {
      SelectEmpty(items[1..], flags[1..]);
      assert forall i :: 1 <= i < |flags| ==> flags[i] == flags[1..][i - 1];
    }
  }

  lemma {:induction false} SelectAppendOne<T>(items: seq<T>, flags: seq<bool>, x: T, b: bool)
    requires |items| == |flags|
    ensures Select(items + [x], flags + [b]) == Select(items, flags) + (if b then [x] else [])
  {
    if |items| == 0 {
      assert items + [x] == [x] && flags + [b] == [b];
    } else {
      var head := if flags[0] then [items[0]] else [];
      var rest := Select(items[1..], flags[1..]);
      var tail := if b then [x] else [];
      SelectAppendOne(items[1..], flags[1..], x, b);
      assert (items + [x])[1..] == items[1..] + [x];
      assert (flags + [b])[1..] == flags[1..] + [b];
      assert Select(items + [x], flags + [b]) == head + (rest + tail);
      assert head + (rest + tail) == (head + rest) + tail;
    }
  }

  /** Selecting from one more item of the fixed list adds that item when its flag is set. */
  lemma SelectStep<T>(items: seq<T>, flags: seq<bool>, k: nat)
    requires |items| == |flags| && k < |items|
    ensures Select(items[..k + 1], flags[..k + 1])
         == Select(items[..k], flags[..k]) + (if flags[k] then [items[k]] else [])
  {
    SelectAppendOne(items[..k], flags[..k], items[k], flags[k]);
    assert items[..k + 1] == items[..k] + [items[k]];
    assert flags[..k + 1] == flags[..k] + [flags[k]];
  }

  predicate StrictlyRanked<T>(s: seq<T>, rank: T -> int)
  {
    forall i, j :: 0 <= i < j < |s| ==> rank(s[i]) < rank(s[j])
  }

  /** Selection keeps the order of the fixed list, so no item is selected twice. */
  lemma {:induction false} SelectRanked<T>(items: seq<T>, flags: seq<bool>, rank: T -> int)
    requires |items| == |flags|
    requires StrictlyRanked(items, rank)
    ensures StrictlyRanked(Select(items, flags), rank)
  {
    if |items| > 0 {
      var rest := Select(items[1..], flags[1..]);
      SelectRanked(items[1..], flags[1..], rank);
      forall x | x in rest ensures rank(items[0]) < rank(x) {
        var k :| 0 <= k < |items[1..]| && items[1..][k] == x;
        assert items[k + 1] == x;
      }
    }
  }

  // ---------------------------------------------------------------------
  // LINQ Skip and Take: a count below zero counts as zero, and a count
  // beyond the end stops at the end.
  // ---------------------------------------------------------------------

  function Skip<T>(s: seq<T>, n: int): seq<T>
  {
    if n <= 0 then s else if n >= |s| then [] else s[n..]
  }

  function Take<T>(s: seq<T>, n: int): seq<T>
  {
    if n <= 0 then [] else if n >= |s| then s else s[..n]
  }

  /** Skip then Take keeps the items at positions skip .. skip + take - 1. */
  lemma SkipTakeWindow<T>(s: seq<T>, skip: int, take: int)
    ensures var r := Take(Skip(s, skip), take);
            var from := Max(0, skip);
            |r| == Max(0, Min(take, |s| - from))
            && forall i :: 0 <= i < |r| ==> r[i] == s[from + i]
  {
  }

  /** A non-empty page is one contiguous slice of the sequence. */
  lemma SkipTakeSlice<T>(s: seq<T>, skip: int, take: int)
    ensures var r := Take(Skip(s, skip), take);
            var from := Max(0, skip);
            r == [] || (from + |r| <= |s| && r == s[from..from + |r|])
  {
    if 0 < skip < |s| && 0 < take < |s| - skip {
      assert s[skip..][..take] == s[skip..skip + take];
    }
  }

  // ---------------------------------------------------------------------
  // string.Join and its inverse.
  // ---------------------------------------------------------------------

  /** string.Join(sep, parts). */
  function Join(parts: seq<string>, sep: string): string
  {
    if |parts| == 0 then ""
    else if |parts| == 1 then parts[0]
    else parts[0] + sep + Join(parts[1..], sep)
  }

  /** Splits at every occurrence of c (string.Split with one separator). */
  function Split(s: string, c: char): (r: seq<string>)
    ensures |r| >= 1
  {
    if |s| == 0 then [""]
    else
      var rest := Split(s[1..], c);
      if s[0] == c then [""] + rest else [[s[0]] + rest[0]] + rest[1..]
  }

  lemma {:induction false} SplitNoSeparator(s: string, c: char)
    requires c !in s
    ensures Split(s, c) == [s]
  {
    if |s| > 0 {
      SplitNoSeparator(s[1..], c);
      assert [s[0]] + s[1..] == s;
    }
  }

  lemma {:induction false} SplitAtFirst(a: string, c: char, b: string)
    requires c !in a
    ensures Split(a + [c] + b, c) == [a] + Split(b, c)
  {
    if |a| == 0 {
      assert a + [c] + b == [c] + b;
      assert ([c] + b)[1..] == b;
    } else {
      SplitAtFirst(a[1..], c, b);
      assert (a + [c] + b)[1..] == a[1..] + [c] + b;
      assert [a[0]] + a[1..] == a;
    }
  }

  /** A message joined with a separator that none of its parts contains
      splits back into exactly those parts. */
  lemma {:induction false} SplitJoin(parts: seq<string>, c: char)
    requires |parts| >= 1
    requires forall p :: p in parts ==> c !in p
    ensures Split(Join(parts, [c]), c) == parts
  {
    if |parts| == 1 {
      SplitNoSeparator(parts[0], c);
    } else {
      SplitJoin(parts[1..], c);
      SplitAtFirst(parts[0], c, Join(parts[1..], [c]));
      assert [parts[0]] + parts[1..] == parts;
    }
  }

  // ---------------------------------------------------------------------
  // string.IsNullOrWhiteSpace, with char.IsWhiteSpace's character set.
  // ---------------------------------------------------------------------

  predicate IsWhiteSpace(c: char)
  {
    var u := c as int;
    (0x09 <= u <= 0x0D) || u == 0x20 || u == 0x85 || u == 0xA0 || u == 0x1680
    || (0x2000 <= u <= 0x200A) || u == 0x2028 || u == 0x2029 || u == 0x202F
    || u == 0x205F || u == 0x3000
  }

  predicate IsNullOrWhiteSpace(s: Option<string>)
  {
    s.None? || forall i :: 0 <= i < |s.value| ==> IsWhiteSpace(s.value[i])
  }

  // ---------------------------------------------------------------------
  // string.Length: .NET strings are UTF-16, so a character above U+FFFF
  // is stored as a surrogate pair and counts twice.
  // ---------------------------------------------------------------------

  function Utf16Length(s: string): (n: nat)
    ensures |s| <= n <= 2 * |s|
  {
    if |s| == 0 then 0 else (if s[0] as int >= 0x1_0000 then 2 else 1) + Utf16Length(s[1..])
  }

  /** A string inside the Basic Multilingual Plane has one code unit per character. */
  lemma {:induction false} Utf16LengthBasic(s: string)
    requires forall i :: 0 <= i < |s| ==> s[i] as int < 0x1_0000
    ensures Utf16Length(s) == |s|
  {
    if |s| > 0 {
      assert forall i :: 0 <= i < |s[1..]| ==> s[1..][i] == s[i + 1];
      Utf16LengthBasic(s[1..]);
    }
  }

  /** A string of characters above U+FFFF has two code units per character. */
  lemma {:induction false} Utf16LengthSupplementary(s: string)
    requires forall i :: 0 <= i < |s| ==> s[i] as int >= 0x1_0000
    ensures Utf16Length(s) == 2 * |s|
  {
    if |s| > 0 {
      assert forall i :: 0 <= i < |s[1..]| ==> s[1..][i] == s[i + 1];
      Utf16LengthSupplementary(s[1..]);
    }
  }

  /** Twenty-six emoji are twenty-six characters but fifty-two code units,
      so a 50-unit limit rejects them. */
  lemma EmojiLength()
    ensures var s := seq(26, i => '\U{1F600}');
            |s| == 26 && Utf16Length(s) == 52
  {
    var s := seq(26, i => '\U{1F600}');
    Utf16LengthSupplementary(s);
  }

  // ---------------------------------------------------------------------
  // int.ToString() in the invariant culture, and its inverse on naturals.
  // ---------------------------------------------------------------------

  predicate IsDigit(c: char) { '0' <= c <= '9' }

  function DigitChar(d: nat): (c: char)
    requires d < 10
    ensures IsDigit(c) && (c as int) - ('0' as int) == d
  {
    (('0' as int) + d) as char
  }

  /** Decimal digits of n, most significant first, without leading zeros. */
  function NatToString(n: nat): (s: string)
    ensures |s| >= 1
    ensures forall i :: 0 <= i < |s| ==> IsDigit(s[i])
    ensures s[0] == '0' ==> n == 0
  {
    if n < 10 then [DigitChar(n)] else NatToString(n / 10) + [DigitChar(n % 10)]
  }

  function ParseNat(s: string): nat
    requires forall i :: 0 <= i < |s| ==> IsDigit(s[i])
  {
    if |s| == 0 then 0
    else
      assert IsDigit(s[|s| - 1]);
      10 * ParseNat(s[..|s| - 1]) + ((s[|s| - 1] as int) - ('0' as int))
  }

  lemma {:induction false} ParseNatToString(n: nat)
    ensures ParseNat(NatToString(n)) == n
  {
    if n >= 10 {
      ParseNatToString(n / 10);
      var s := NatToString(n / 10) + [DigitChar(n % 10)];
      assert s[..|s| - 1] == NatToString(n / 10);
    }
  }

  /** int.ToString(): a leading '-' for negative values. */
  function IntToString(n: int): string
  {
    if n < 0 then "-" + NatToString(-n) else NatToString(n)
  }
}
