/** Canonical unsigned decimal text (crates/w9pt-fs-state-postgres/src/numeric.rs)
    and Content-Range validation per sections 14.1.2 and 14.4 of RFC 9110
    (crates/w9pt-fs-storage-s3/src/range.rs). */
module Decimal {
  import opened Values

  predicate IsDigit(c: char)
  {
    '0' <= c <= '9'
  }

  predicate AllDigits(s: string)
  {
    forall i | 0 <= i < |s| :: IsDigit(s[i])
  }

  function DigitChar(d: nat): char
    requires d < 10
  {
    '0' + d as char
  }

  function DigitValue(c: char): nat
    requires IsDigit(c)
  {
    (c - '0') as nat
  }

  /** `u64::to_string`. */
  function Print(n: nat): string
  {
    if n < 10 then [DigitChar(n)] else Print(n / 10) + [DigitChar(n % 10)]
  }

  /** The number a digit string denotes. */
  function Number(s: string): nat
    requires AllDigits(s)
  {
    if s == [] then 0 else Number(s[..|s| - 1]) * 10 + DigitValue(s[|s| - 1])
  }

  predicate Canonical(s: string)
  {
    s != [] && AllDigits(s) && (|s| > 1 ==> s[0] != '0')
  }

  /** `parse_canonical_u64`. */
  function ParseCanonical(s: string): Option<nat>
  {
    if !Canonical(s) || Number(s) > U64_MAX then None else Some(Number(s))
  }

  /** `decode_u64`, with its final comparison against the printed value. */
  function DecodeU64(s: string): Option<nat>
  {
    if !Canonical(s) || Number(s) > U64_MAX then None
    else if Print(Number(s)) != s then None
    else Some(Number(s))
  }

  lemma {:induction false} PrintIsCanonical(n: nat)
    ensures Canonical(Print(n)) && Number(Print(n)) == n
    ensures n > 0 ==> Print(n)[0] != '0'
  {
    if n >= 10 {
      PrintIsCanonical(n / 10);
      var s := Print(n);
      assert s[..|s| - 1] == Print(n / 10);
      assert s[0] == Print(n / 10)[0];
    } else {
      assert Print(n)[..0] == [];
    }
  }

  lemma {:induction false} NonzeroNumber(s: string)
    requires AllDigits(s) && s != [] && s[0] != '0'
    ensures Number(s) > 0
    decreases |s|
  {
    if |s| > 1 {
      NonzeroNumber(s[..|s| - 1]);
    }
  }

  lemma {:induction false} CanonicalIsPrinted(s: string)
    requires Canonical(s)
    ensures Print(Number(s)) == s
    decreases |s|
  {
    var init := s[..|s| - 1];
    var last := s[|s| - 1];
    if |s| == 1 {
      assert init == [];
      assert s == [last];
    } else {
      NonzeroNumber(init);
      CanonicalIsPrinted(init);
      assert Number(s) / 10 == Number(init) && Number(s) % 10 == DigitValue(last);
      assert s == init + [last];
    }
  }

  /** Decoding accepts exactly the printed form of each 64-bit value. */
  lemma DecodeIffPrinted(s: string, v: nat)
    ensures DecodeU64(s) == Some(v) <==> v <= U64_MAX && s == Print(v)
    ensures ParseCanonical(s) == DecodeU64(s)
  {
    if Canonical(s) {
      CanonicalIsPrinted(s);
    }
    PrintIsCanonical(v);
  }

  // ----------------------------------------------------------- byte ranges

  /** `str::split_once`: around the first occurrence. */
  function SplitOnce(s: string, c: char): Option<(string, string)>
  {
    if s == [] then None
    else if s[0] == c then Some(([], s[1..]))
    else
      var rest := SplitOnce(s[1..], c);
      if rest.None? then None else Some(([s[0]] + rest.value.0, rest.value.1))
  }

  lemma {:induction false} SplitFirst(a: string, c: char, b: string)
    requires c !in a
    ensures SplitOnce(a + [c] + b, c) == Some((a, b))
    decreases |a|
  {
    var s := a + [c] + b;
    if a == [] {
      assert s[0] == c && s[1..] == b;
    } else {
      assert s[0] == a[0];
      assert s[1..] == a[1..] + [c] + b;
      SplitFirst(a[1..], c, b);
      assert a == [a[0]] + a[1..];
    }
  }

  lemma {:induction false} SplitJoins(s: string, c: char)
    requires SplitOnce(s, c).Some?
    ensures var p := SplitOnce(s, c).value; s == p.0 + [c] + p.1 && c !in p.0
    decreases |s|
  {
    if s[0] != c {
      SplitJoins(s[1..], c);
      assert s == [s[0]] + s[1..];
    }
  }

  const UNIT: string := "bytes "

  /** `validate_content_range` for the half-open request [start, end). */
  function ContentRangeTotal(value: string, start: nat, end: nat): Option<nat>
  {
    if !(UNIT <= value) then None
    else
      var slash := SplitOnce(value[|UNIT|..], '/');
      if slash.None? || '/' in slash.value.1 then None
      else
        var dash := SplitOnce(slash.value.0, '-');
        if dash.None? || '-' in dash.value.1 then None
        else
          var first := ParseCanonical(dash.value.0);
          var last := ParseCanonical(dash.value.1);
          var total := ParseCanonical(slash.value.1);
          if first.None? || last.None? || total.None? || end == 0 then None
          else if first.value != start || last.value != end - 1 then None
          else if total.value <= last.value then None
          else total
  }

  /** The one header that describes the request against an object of `total` bytes. */
  function ContentRangeHeader(start: nat, end: nat, total: nat): string
    requires end > 0
  {
    UNIT + ((Print(start) + ['-'] + Print(end - 1)) + ['/'] + Print(total))
  }

  lemma DigitsOnly(s: string, c: char)
    requires AllDigits(s) && !IsDigit(c)
    ensures c !in s
  {
  }

  lemma PrintedHolds(n: nat, c: char)
    requires !IsDigit(c)
    ensures c !in Print(n)
  {
    hide Print, Number, AllDigits;
    PrintIsCanonical(n);
    DigitsOnly(Print(n), c);
  }

  /** A printed range splits at its dash. */
  lemma RangeSplits(first: nat, last: nat)
    ensures SplitOnce(Print(first) + ['-'] + Print(last), '-') == Some((Print(first), Print(last)))
    ensures '-' !in Print(last)
  {
    hide Print, SplitOnce;
    PrintedHolds(first, '-');
    PrintedHolds(last, '-');
    SplitFirst(Print(first), '-', Print(last));
  }

  /** A printed range and total split at the slash. */
  lemma TotalSplits(first: nat, last: nat, total: nat)
    ensures var returned := Print(first) + ['-'] + Print(last);
            SplitOnce(returned + ['/'] + Print(total), '/') == Some((returned, Print(total)))
    ensures '/' !in Print(total)
  {
    hide Print, SplitOnce;
    PrintedHolds(first, '/');
    PrintedHolds(last, '/');
    PrintedHolds(total, '/');
    SplitFirst(Print(first) + ['-'] + Print(last), '/', Print(total));
  }

  lemma HeaderParses(start: nat, end: nat, total: nat)
    requires 0 < end <= U64_MAX && start <= U64_MAX && end <= total <= U64_MAX
    ensures ContentRangeTotal(ContentRangeHeader(start, end, total), start, end) == Some(total)
  {
    hide Print, SplitOnce, ParseCanonical, DecodeU64;
    DecodeIffPrinted(Print(start), start);
    DecodeIffPrinted(Print(end - 1), end - 1);
    DecodeIffPrinted(Print(total), total);
    RangeSplits(start, end - 1);
    TotalSplits(start, end - 1, total);
    var value := ContentRangeHeader(start, end, total);
    assert value[|UNIT|..] == (Print(start) + ['-'] + Print(end - 1)) + ['/'] + Print(total);
  }

  /** Content-Range validation accepts exactly that header, with a total no smaller
      than the requested end. */
  lemma ContentRangeExact(value: string, start: nat, end: nat, total: nat)
    requires start <= U64_MAX && end <= U64_MAX
    ensures ContentRangeTotal(value, start, end) == Some(total) <==>
            0 < end <= total <= U64_MAX && value == ContentRangeHeader(start, end, total)
  {
    if 0 < end <= total <= U64_MAX && value == ContentRangeHeader(start, end, total) {
      HeaderParses(start, end, total);
    }
    if ContentRangeTotal(value, start, end) == Some(total) {
      var body := value[|UNIT|..];
      SplitJoins(body, '/');
      var slash := SplitOnce(body, '/').value;
      SplitJoins(slash.0, '-');
      var dash := SplitOnce(slash.0, '-').value;
      DecodeIffPrinted(dash.0, start);
      DecodeIffPrinted(dash.1, end - 1);
      DecodeIffPrinted(slash.1, total);
      assert value == UNIT + body;
    }
  }

  datatype RangeRequest = NothingToFetch | TooLong(length: nat) | Fetch(header: string, length: nat)

  /** `checked_http_range` for an ordered range. */
  function HttpRange(start: nat, end: nat, maximum: nat): RangeRequest
    requires start <= end
  {
    if start == end then NothingToFetch
    else if end - start > maximum then TooLong(end - start)
    else Fetch("bytes=" + (Print(start) + ['-'] + Print(end - 1)), end - start)
  }

  /** A range is fetched exactly when it is nonempty and within the maximum. The header
      then asks for its first and its last byte, the length is the number of bytes, and
      the one Content-Range accepted for an object of `total` bytes repeats what it asked. */
  lemma RangeAsksBytes(start: nat, end: nat, maximum: nat)
    requires start <= end <= U64_MAX
    ensures HttpRange(start, end, maximum).Fetch? <==> 0 < end - start <= maximum
    ensures HttpRange(start, end, maximum).TooLong? <==> end - start > maximum
    ensures match HttpRange(start, end, maximum)
            case NothingToFetch => start == end
            case TooLong(length) => length == end - start
            case Fetch(header, length) =>
              && length == end - start
              && "bytes=" <= header
              && SplitOnce(header[6..], '-').Some?
              && var (first, last) := SplitOnce(header[6..], '-').value;
                 && ParseCanonical(first) == Some(start) && ParseCanonical(last) == Some(end - 1)
                 && forall total | end <= total <= U64_MAX ::
                      ContentRangeTotal("bytes " + header[6..] + "/" + Print(total), start, end) == Some(total)
  {
    hide Print, SplitOnce, ParseCanonical, DecodeU64, ContentRangeTotal;
    if 0 < end - start <= maximum {
      var asked := Print(start) + ['-'] + Print(end - 1);
      assert HttpRange(start, end, maximum).header[6..] == asked;
      RangeSplits(start, end - 1);
      DecodeIffPrinted(Print(start), start);
      DecodeIffPrinted(Print(end - 1), end - 1);
      forall total | end <= total <= U64_MAX
        ensures ContentRangeTotal("bytes " + asked + "/" + Print(total), start, end) == Some(total)
      {
        HeaderParses(start, end, total);
        assert "bytes " + asked + "/" + Print(total) == ContentRangeHeader(start, end, total);
      }
    }
  }

  /** Different nonempty ranges ask with different headers. */
  lemma RangeHeaderInjective(a: nat, b: nat, c: nat, d: nat, maximum: nat)
    requires a <= b && c <= d && HttpRange(a, b, maximum).Fetch? && HttpRange(c, d, maximum).Fetch?
    requires HttpRange(a, b, maximum).header == HttpRange(c, d, maximum).header
    ensures a == c && b == d
  {
    hide Print, SplitOnce, Number, AllDigits;
    var x := Print(a) + ['-'] + Print(b - 1);
    var y := Print(c) + ['-'] + Print(d - 1);
    assert x == HttpRange(a, b, maximum).header[6..] && y == HttpRange(c, d, maximum).header[6..];
    RangeSplits(a, b - 1);
    RangeSplits(c, d - 1);
    PrintIsCanonical(a);
    PrintIsCanonical(b - 1);
    PrintIsCanonical(c);
    PrintIsCanonical(d - 1);
  }
}
