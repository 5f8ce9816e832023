/**
 Requests that reach the parser in pieces (native_protocol_parser.cc): the parser asks for more
 only if the piece ends inside a line that carries a number.
 */
module RespSplit {
  import opened Wrappers
  import opened Resp
  import opened RespGrammar

  function NumberLine(tag: char, n: nat): string {
    [tag] + Decimal(n) + CRLF
  }

  /** A complete line with a number ends where it was printed to end. */
  lemma PrintedLineEnd(buf: string, a: nat, tag: char, n: nat)
    requires (tag == '*' || tag == '$') && Stands(buf, a, NumberLine(tag, n))
    ensures buf[a] == tag && LineEnd(buf, a) == Some(a + 1 + |Decimal(n)|)
    ensures Number(buf, a) == Some(n % UINT32) && FirstNonDigit(buf, a + 1, a + 1 + |Decimal(n)|) == a + 1 + |Decimal(n)|
  {
    hide Decimal, Atoi;
    var t := a + 1 + |Decimal(n)|;
    LineShape(buf, a, tag, n);
    DecimalDigits(buf, a + 1, n);
    hide Stands;
    FirstEnd(buf, a, t);
    AtoiDecimal(buf, a + 1, n);
    DigitRun(buf, a + 1, |Decimal(n)|, t + 1);
    DigitsEnd(buf, a + 1, t, t + 1);
  }

  lemma {:induction false} FirstEnd(buf: string, a: nat, t: nat)
    requires a <= t && EndsLine(buf, t) && forall j | a <= j < t :: !EndsLine(buf, j)
    ensures LineEnd(buf, a) == Some(t)
    decreases t - a
  {
    if a < t {
      FirstEnd(buf, a + 1, t);
    }
  }

  /** A line with a number that the buffer breaks off has no end, and the scan does not run over. */
  lemma BrokenLine(buf: string, a: nat, tag: char, n: nat)
    requires (tag == '*' || tag == '$') && a <= |buf| < a + |NumberLine(tag, n)|
    requires buf[a..] == NumberLine(tag, n)[..|buf| - a]
    ensures LineEnd(buf, a).None? && !RunsOver(buf, a)
  {
    hide Decimal;
    var line := NumberLine(tag, n);
    forall j | a <= j < |buf| ensures buf[j] == line[j - a] && buf[j] != ' ' && buf[j] != '\n' {
      assert buf[j] == buf[a..][j - a];
    }
  }

  /** A bulk string that is there completely. */
  lemma PrintedBulk(buf: string, a: nat, d: string)
    requires Stands(buf, a, Bulk(d)) && Printable(d)
    ensures BulkAt(buf, a) == Some((d, a + |Bulk(d)|))
  {
    hide Decimal, Stands, LineEnd, FirstNonDigit, Number;
    BulkShape(buf, a, d);
    PrintedLineEnd(buf, a, '$', |d|);
  }

  /** A bulk string of which the length is there but not all of the rest. */
  lemma BrokenBulk(buf: string, a: nat, d: string)
    requires Stands(buf, a, NumberLine('$', |d|)) && Printable(d) && |buf| < a + |Bulk(d)|
    ensures BulkAt(buf, a).None? && LineEnd(buf, a).Some? && Refusal(buf, a) == Failed(InvalidRequest)
  {
    hide Decimal, Stands, LineEnd, FirstNonDigit, Number;
    PrintedLineEnd(buf, a, '$', |d|);
    assert |Bulk(d)| == |Decimal(|d|)| + |d| + 5;
  }

  /** Do the first cut bytes of the printed strings end behind a length but before the end of its string? */
  predicate EndsInString(ds: seq<string>, cut: nat)
    decreases |ds|
  {
    && ds != []
    && if cut < |Bulk(ds[0])| then cut >= |NumberLine('$', |ds[0]|)| else EndsInString(ds[1..], cut - |Bulk(ds[0])|)
  }

  /** What the parser meets behind the strings that are complete. */
  ghost predicate BreaksOff(buf: string, b: nat, inside: bool)
    requires b <= |buf|
  {
    && BulkAt(buf, b).None?
    && if inside then LineEnd(buf, b).Some? && Refusal(buf, b) == Failed(InvalidRequest)
       else LineEnd(buf, b).None? && !RunsOver(buf, b)
  }

  lemma FirstBreaksOff(buf: string, a: nat, d: string)
    requires Printable(d) && a <= |buf| < a + |Bulk(d)| && buf[a..] == Bulk(d)[..|buf| - a]
    ensures BreaksOff(buf, a, |buf| - a >= |NumberLine('$', |d|)|)
  {
    hide Decimal;
    var line := NumberLine('$', |d|);
    assert Bulk(d) == line + (d + CRLF);
    if |buf| - a >= |line| {
      assert buf[a..a + |line|] == buf[a..][..|line|] == line;
      BrokenBulk(buf, a, d);
    } else {
      assert buf[a..] == line[..|buf| - a];
      BrokenLine(buf, a, '$', |d|);
    }
  }

  lemma {:induction false} Pieces(buf: string, a: nat, ds: seq<string>) returns (k: nat, b: nat)
    requires forall d | d in ds :: Printable(d)
    requires a <= |buf| < a + |Bulks(ds)| && buf[a..] == Bulks(ds)[..|buf| - a]
    ensures k < |ds| && b <= |buf| && BulksAt(buf, a, ds[..k], b) && BreaksOff(buf, b, EndsInString(ds, |buf| - a))
    decreases |ds|
  {
    hide Bulk, NumberLine, BulkAt, LineEnd, BreaksOff;
    var d, n := ds[0], |Bulk(ds[0])|;
    BulksLength(ds);
    assert Bulks(ds) == Bulk(d) + Bulks(ds[1..]);
    if |buf| < a + n {
      k, b := 0, a;
      assert buf[a..] == Bulk(d)[..|buf| - a];
      FirstBreaksOff(buf, a, d);
    } else {
      assert buf[a..a+n] == buf[a..][..n] == Bulk(d);
      PrintedBulk(buf, a, d);
      assert buf[a+n..] == buf[a..][n..] == Bulks(ds[1..])[..|buf| - a - n];
      var k1, b1 := Pieces(buf, a + n, ds[1..]);
      k, b := k1 + 1, b1;
      assert ds[..k][1..] == ds[1..][..k1] && ds[..k][0] == d;
    }
  }

  /**
   Split input.  A proper part of a printed request, from its beginning on, is refused if and only
   if it ends inside a string; otherwise the parser asks for more, up to its limit on the buffer.
   */
  lemma SplitExact(ds: seq<string>, cut: nat)
    requires IsRequest(ds) && cut < |Print(ds)|
    ensures var h, o := |NumberLine('*', |ds|)|, Parse(Print(ds)[..cut]);
      if cut >= h && EndsInString(ds, cut - h) then o == Failed(InvalidRequest)
      else if cut > MAX_INLINE_BUFFER_SIZE then o == Failed(TooBig)
      else o.NeedMore?
  {
    var line, buf := NumberLine('*', |ds|), Print(ds)[..cut];
    var h := |line|;
    hide Parse, Decimal, Bulks, EndsInString, Stands, IsRequest;
    assert Print(ds) == line + Bulks(ds);
    hide NumberLine, Print;
    if cut < h {
      assert buf[0..] == line[..cut];
      FirstBroken(buf, |ds|);
    } else {
      assert buf[0..h] == line && Stands(buf, 0, line) by {
        TakesPrefix(buf, line, Bulks(ds), cut);
      }
      assert buf[h..] == Bulks(ds)[..cut - h];
      LaterBroken(buf, ds);
    }
  }

  lemma TakesPrefix(buf: string, x: string, y: string, cut: nat)
    requires |x| <= cut <= |x| + |y| && buf == (x + y)[..cut]
    ensures Stands(buf, 0, x)
  {
  }

  lemma LaterBroken(buf: string, ds: seq<string>)
    requires IsRequest(ds) && Stands(buf, 0, NumberLine('*', |ds|))
    requires var h := |NumberLine('*', |ds|)|; |buf| < h + |Bulks(ds)| && buf[h..] == Bulks(ds)[..|buf| - h]
    ensures if EndsInString(ds, |buf| - |NumberLine('*', |ds|)|) then Parse(buf) == Failed(InvalidRequest)
      else if |buf| > MAX_INLINE_BUFFER_SIZE then Parse(buf) == Failed(TooBig)
      else Parse(buf).NeedMore?
  {
    hide Parse, Header, Decimal, Bulks, LineEnd, Refusal, EndsInString, NumberLine, Stands, BulkAt, BulksAt, Filled, RunsOver;
    PrintedHeader(buf, |ds|);
    var k, b := Pieces(buf, |NumberLine('*', |ds|)|, ds);
    RefusesExactly(buf, ds[..k], b);
  }

  lemma FirstBroken(buf: string, n: nat)
    requires |buf| < |NumberLine('*', n)| && buf[0..] == NumberLine('*', n)[..|buf|]
    ensures Parse(buf) == if |buf| > MAX_INLINE_BUFFER_SIZE then Failed(TooBig) else NeedMore(EMPTY)
  {
    hide Parse, NumberLine, LineEnd;
    BrokenLine(buf, 0, '*', n);
    FirstLine(buf);
  }

  lemma PrintedHeader(buf: string, n: nat)
    requires Stands(buf, 0, NumberLine('*', n)) && 0 < n <= INT32_MAX
    ensures Header(buf) == Some((n, |NumberLine('*', n)|))
  {
    hide Decimal, Stands, LineEnd, Number;
    PrintedLineEnd(buf, 0, '*', n);
  }
}
