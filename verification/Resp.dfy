/**
 The RESP request parser (native_protocol_parser.cc) against the RESP array printer
 (reply_builder.hh): whatever the payload bytes are, printed requests parse back.
 */
module Resp {
  const UINT32: int := 0x1_0000_0000
  const INT32_MAX: int := 0x7fff_ffff
  const MAX_INLINE_BUFFER_SIZE: int := 1024 * 64
  const CRLF: string := "\r\n"

  import opened Wrappers

  /** request_wrapper, as far as the parser fills it. */
  datatype Request = Request(command: string, args: seq<string>, argsCount: int, ok: bool)

  datatype Error = InvalidRequest | Unexpected(found: char) | InlineNotSupported | TooBig | ArgsNotEmpty

  /** Overrun: the code would read a byte behind the buffer. */
  datatype Outcome =
    | Parsed(end: nat, req: Request)
    | NeedMore(req: Request)
    | Failed(error: Error)
    | Overrun

  // ------------------------------------------------------------------ numbers

  predicate IsDigit(c: char) { '0' <= c <= '9' }

  predicate IsSpace(c: char) { c == ' ' || ('\t' <= c <= '\r') }

  function DigitValue(c: char): nat
    requires IsDigit(c)
  {
    c as int - '0' as int
  }

  function SkipWhitespace(buf: string, i: nat): (j: nat)
    requires i <= |buf|
    ensures i <= j <= |buf|
    decreases |buf| - i
  {
    if i < |buf| && IsSpace(buf[i]) then SkipWhitespace(buf, i + 1) else i
  }

  /** The digits from i on, added to acc; None if they run to the end of the buffer. */
  function DigitsFrom(buf: string, i: nat, acc: nat): Option<int>
    requires i <= |buf|
    decreases |buf| - i
  {
    if i == |buf| then None
    else if IsDigit(buf[i]) then DigitsFrom(buf, i + 1, acc * 10 + DigitValue(buf[i]))
    else Some(acc)
  }

  /** std::atoi from position i, before the result is cut to 32 bits. */
  function Atoi(buf: string, i: nat): Option<int>
    requires i <= |buf|
  {
    var j := SkipWhitespace(buf, i);
    if j == |buf| then None
    else if buf[j] == '-' then
      match DigitsFrom(buf, j + 1, 0) case None => None case Some(n) => Some(-n)
    else if buf[j] == '+' then DigitsFrom(buf, j + 1, 0)
    else DigitsFrom(buf, j, 0)
  }

  function FirstNonDigit(buf: string, i: nat, end: nat): (j: nat)
    requires i <= end <= |buf|
    ensures i <= j <= end
    decreases end - i
  {
    if i < end && IsDigit(buf[i]) then FirstNonDigit(buf, i + 1, end) else i
  }

  // ------------------------------------------------------------------ parsing

  function SkipBlanks(buf: string, s: nat): (t: nat)
    requires s <= |buf|
    ensures s <= t <= |buf|
    decreases |buf| - s
  {
    if s < |buf| && buf[s] == ' ' then SkipBlanks(buf, s + 1) else s
  }

  /** Where parse stands: the scan position, the start of the current line, whether the count was read. */
  datatype Cursor = Cursor(s: nat, begin: nat, named: bool)

  /** What one pass of parse's loop does. */
  datatype Turn = Go(cur: Cursor, req: Request) | Stop(outcome: Outcome)

  ghost predicate CursorOk(buf: string, cur: Cursor) {
    cur.begin <= cur.s <= |buf|
  }

  /** A line ended at t (its CR); begin is its first byte. */
  function LineTurn(buf: string, t: nat, cur: Cursor, req: Request): (r: Turn)
    requires cur.begin <= t && t + 2 <= |buf| && buf[t] == '\r'
    ensures r.Go? ==> CursorOk(buf, r.cur) && r.cur.s > t
    ensures r.Stop? && r.outcome.Parsed? ==> t < r.outcome.end <= |buf|
  {
    var first := buf[cur.begin];
    if first == '*' then
      if cur.named then Stop(Failed(InvalidRequest))
      else if req.args != [] then Stop(Failed(ArgsNotEmpty))
      else
        match Atoi(buf, cur.begin + 1)
        case None => Stop(Overrun)
        case Some(n) =>
          if n % UINT32 == 0 then Stop(Failed(InvalidRequest))
          else Go(Cursor(t + 2, t + 2, true), req.(argsCount := (n % UINT32 - 1) % UINT32))
    else if first != '$' then Stop(Failed(Unexpected(first)))
    else if !cur.named then Stop(Failed(InlineNotSupported))
    else
      var endNumber := FirstNonDigit(buf, cur.begin + 1, t + 2);
      if endNumber == t + 2 then Stop(Failed(InvalidRequest))
      else
        match Atoi(buf, cur.begin + 1)
        case None => Stop(Overrun)
        case Some(n) =>
          var number := n % UINT32;
          var end := t + 2 + number + 2;
          if number == 0 || end > |buf| || endNumber + 2 > |buf| then Stop(Failed(InvalidRequest))
          else BulkTurn(buf[endNumber + 2..endNumber + 2 + number], end, req)
  }

  /** A bulk string was cut out; it is the command or the next argument. */
  function BulkTurn(payload: string, end: nat, req: Request): Turn {
    if req.command == "" then Go(Cursor(end, end, true), req.(command := payload))
    else
      var r := req.(args := req.args + [payload]);
      if |r.args| == r.argsCount then Stop(Parsed(end, r.(ok := true)))
      else Go(Cursor(end, end, true), r)
  }

  function TakeTurn(buf: string, cur: Cursor, req: Request): (r: Turn)
    requires CursorOk(buf, cur) && cur.s < |buf| - 1
    ensures r.Go? ==> CursorOk(buf, r.cur) && r.cur.s > cur.s
    ensures r.Stop? && r.outcome.Parsed? ==> 0 < r.outcome.end <= |buf|
  {
    var t := SkipBlanks(buf, cur.s);
    if t == |buf| || (buf[t] == '\r' && t + 1 == |buf|) then Stop(Overrun)
    else if buf[t] == '\r' && buf[t+1] == '\n' then LineTurn(buf, t, cur, req)
    else Go(cur.(s := t + 1), req)
  }

  function ParseFrom(buf: string, cur: Cursor, req: Request): (o: Outcome)
    requires CursorOk(buf, cur)
    ensures o.Parsed? ==> 0 < o.end <= |buf|
    decreases |buf| - cur.s
  {
    if cur.s < |buf| - 1 then
      match TakeTurn(buf, cur, req)
      case Stop(o) => o
      case Go(cur', req') => ParseFrom(buf, cur', req')
    else if |buf| > MAX_INLINE_BUFFER_SIZE then Failed(TooBig)
    else NeedMore(req)
  }

  /** Where a turn leads. */
  function Resume(buf: string, r: Turn): Outcome
    requires r.Go? ==> CursorOk(buf, r.cur)
  {
    match r
    case Stop(o) => o
    case Go(cur, req) => ParseFrom(buf, cur, req)
  }

  const EMPTY: Request := Request("", [], 0, false)

  /** init followed by parse on a buffer. */
  function Parse(buf: string): (o: Outcome)
    ensures o.Parsed? ==> 0 < o.end <= |buf|
  {
    ParseFrom(buf, Cursor(0, 0, false), EMPTY)
  }

  /** The requests a connection reads from one buffer, each as the list of its strings, and what is left. */
  function ParseAll(buf: string): (seq<seq<string>>, string)
    decreases |buf|
  {
    match Parse(buf)
    case Parsed(end, req) =>
      var (more, left) := ParseAll(buf[end..]);
      ([[req.command] + req.args] + more, left)
    case _ => ([], buf)
  }

  // ----------------------------------------------------------------- printing

  function Digit(n: nat): (c: char)
    requires n < 10
    ensures IsDigit(c) && DigitValue(c) == n
  {
    '0' + n as char
  }

  /** to_sstring of a size. */
  function Decimal(n: nat): (s: string)
    ensures s != "" && forall i | 0 <= i < |s| :: IsDigit(s[i])
  {
    if n < 10 then [Digit(n)] else Decimal(n / 10) + [Digit(n % 10)]
  }

  function Bulk(d: string): string {
    "$" + Decimal(|d|) + CRLF + d + CRLF
  }

  function Bulks(ds: seq<string>): string {
    if ds == [] then "" else Bulk(ds[0]) + Bulks(ds[1..])
  }

  function Print(ds: seq<string>): string {
    "*" + Decimal(|ds|) + CRLF + Bulks(ds)
  }

  /** build(std::vector<bytes>&) */
  method Build(data: seq<string>) returns (m: string)
    ensures m == Print(data)
  {
    hide Decimal;
    m := "*";
    m := m + Decimal(|data|);
    m := m + CRLF;
    ghost var head := m;
    assert head + Bulks(data[..0]) == head;
    for i := 0 to |data|
      invariant m == head + Bulks(data[..i])
    {
      BulksAppend(data[..i], data[i]);
      assert data[..i+1] == data[..i] + [data[i]];
      m := m + "$";
      m := m + Decimal(|data[i]|);
      m := m + CRLF;
      m := m + data[i];
      m := m + CRLF;
      assert m == head + Bulks(data[..i]) + Bulk(data[i]);
    }
    assert data[..|data|] == data;
  }

  lemma {:induction false} BulksAppend(ds: seq<string>, d: string)
    ensures Bulks(ds + [d]) == Bulks(ds) + Bulk(d)
  {
    hide Bulk;
    if ds == [] {
      assert ds + [d] == [d] && Bulks([d][1..]) == "";
    } else {
      BulksAppend(ds[1..], d);
      assert (ds + [d])[1..] == ds[1..] + [d];
      var first, rest, last := Bulk(ds[0]), Bulks(ds[1..]), Bulk(d);
      assert first + (rest + last) == first + rest + last;
    }
  }

  // ------------------------------------------------------- numbers read back

  /** `what` stands in buf at position i. */
  ghost predicate Stands(buf: string, i: nat, what: string) {
    i + |what| <= |buf| && buf[i..i+|what|] == what
  }

  lemma {:induction false} DecimalValue(buf: string, i: nat, n: nat)
    requires Stands(buf, i, Decimal(n))
    ensures DigitsFrom(buf, i, 0) == DigitsFrom(buf, i + |Decimal(n)|, n)
    decreases n
  {
    var k := |Decimal(n)|;
    assert buf[i..i+k] == Decimal(n);
    if n < 10 {
      assert buf[i] == Digit(n);
    } else {
      assert buf[i..i+k][..k-1] == Decimal(n / 10);
      assert buf[i..i+k-1] == Decimal(n / 10);
      DecimalValue(buf, i, n / 10);
      assert buf[i..i+k][k-1] == Digit(n % 10);
      assert buf[i+k-1] == Digit(n % 10);
    }
  }

  /** atoi stops at the CR behind a printed number and yields it. */
  lemma AtoiDecimal(buf: string, i: nat, n: nat)
    requires Stands(buf, i, Decimal(n)) && i + |Decimal(n)| < |buf| && buf[i + |Decimal(n)|] == '\r'
    ensures Atoi(buf, i) == Some(n)
  {
    DecimalValue(buf, i, n);
    assert buf[i] == buf[i..i+|Decimal(n)|][0];
  }

  lemma {:induction false} DigitRun(buf: string, i: nat, k: nat, end: nat)
    requires i + k < end <= |buf| && !IsDigit(buf[i+k])
    requires forall j | i <= j < i + k :: IsDigit(buf[j])
    ensures FirstNonDigit(buf, i, end) == i + k
    decreases k
  {
    if k > 0 {
      DigitRun(buf, i + 1, k - 1, end);
    }
  }

  lemma DecimalDigits(buf: string, i: nat, n: nat)
    requires Stands(buf, i, Decimal(n))
    ensures forall j | i <= j < i + |Decimal(n)| :: IsDigit(buf[j])
  {
    forall j | i <= j < i + |Decimal(n)| ensures IsDigit(buf[j]) {
      assert buf[j] == buf[i..i+|Decimal(n)|][j - i];
    }
  }

  // ---------------------------------------------------------- lines read back

  lemma ParseStep(buf: string, cur: Cursor, req: Request)
    requires CursorOk(buf, cur) && cur.s < |buf| - 1
    ensures ParseFrom(buf, cur, req) == Resume(buf, TakeTurn(buf, cur, req))
  {
    hide TakeTurn;
  }

  lemma OrdinaryByte(buf: string, cur: Cursor, req: Request)
    requires CursorOk(buf, cur) && cur.s < |buf| - 1 && buf[cur.s] != ' ' && buf[cur.s] != '\r'
    ensures TakeTurn(buf, cur, req) == Go(cur.(s := cur.s + 1), req)
  {
    hide LineTurn;
  }

  /** Scanning over bytes that are neither blank nor CR. */
  lemma {:induction false} Scan(buf: string, cur: Cursor, req: Request, t: nat)
    requires CursorOk(buf, cur) && cur.s <= t < |buf| - 1
    requires forall j | cur.s <= j < t :: buf[j] != ' ' && buf[j] != '\r'
    ensures ParseFrom(buf, cur, req) == ParseFrom(buf, cur.(s := t), req)
    decreases t - cur.s
  {
    hide ParseFrom, TakeTurn;
    if cur.s < t {
      ParseStep(buf, cur, req);
      OrdinaryByte(buf, cur, req);
      Scan(buf, cur.(s := cur.s + 1), req, t);
    }
  }

  lemma AtLineEnd(buf: string, cur: Cursor, req: Request)
    requires CursorOk(buf, cur) && cur.s + 2 <= |buf| && buf[cur.s] == '\r' && buf[cur.s+1] == '\n'
    ensures ParseFrom(buf, cur, req) == Resume(buf, LineTurn(buf, cur.s, cur, req))
  {
    hide LineTurn;
  }

  lemma SliceOfSlice(buf: string, a: nat, n: nat, i: nat, j: nat)
    requires a + n <= |buf| && i <= j <= n
    ensures buf[a..a+n][i..j] == buf[a+i..a+j]
  {
    var x, y := buf[a..a+n][i..j], buf[a+i..a+j];
    assert forall k | 0 <= k < j - i :: x[k] == buf[a+i+k] == y[k];
    assert x == y;
  }

  /** Where a concatenation stands, its two parts stand one after the other. */
  lemma StandsParts(buf: string, a: nat, x: string, y: string)
    requires Stands(buf, a, x + y)
    ensures Stands(buf, a, x) && Stands(buf, a + |x|, y)
  {
    var n := |x + y|;
    SliceOfSlice(buf, a, n, 0, |x|);
    SliceOfSlice(buf, a, n, |x|, n);
    assert (x + y)[0..|x|] == x && (x + y)[|x|..n] == y;
  }

  lemma LineShape(buf: string, a: nat, tag: char, n: nat)
    requires Stands(buf, a, [tag] + Decimal(n) + CRLF)
    ensures var t := a + 1 + |Decimal(n)|;
      t + 2 <= |buf| && buf[t] == '\r' && buf[t+1] == '\n' && buf[a] == tag && Stands(buf, a + 1, Decimal(n))
  {
    hide Decimal;
    StandsParts(buf, a, [tag] + Decimal(n), CRLF);
    StandsParts(buf, a, [tag], Decimal(n));
    var t := a + 1 + |Decimal(n)|;
    assert |CRLF| == 2 && CRLF[0] == '\r' && CRLF[1] == '\n';
    assert buf[t] == buf[t..t+2][0] && buf[t+1] == buf[t..t+2][1];
    assert buf[a] == buf[a..a+1][0];
  }

  /** A line "<tag><number>CRLF" at position a leads to the line's turn. */
  lemma LineReached(buf: string, a: nat, named: bool, req: Request, tag: char, n: nat)
    requires tag == '*' || tag == '$'
    requires Stands(buf, a, [tag] + Decimal(n) + CRLF)
    ensures var t := a + 1 + |Decimal(n)|;
      && t + 2 <= |buf| && buf[t] == '\r'
      && ParseFrom(buf, Cursor(a, a, named), req) == Resume(buf, LineTurn(buf, t, Cursor(t, a, named), req))
  {
    hide Decimal, ParseFrom, LineTurn, Stands;
    var t := a + 1 + |Decimal(n)|;
    LineShape(buf, a, tag, n);
    DecimalDigits(buf, a + 1, n);
    Scan(buf, Cursor(a, a, named), req, t);
    AtLineEnd(buf, Cursor(t, a, named), req);
  }

  lemma HeaderRead(buf: string, n: nat, req: Request)
    requires Stands(buf, 0, "*" + Decimal(n) + CRLF) && 0 < n <= INT32_MAX && req.args == []
    ensures var h := 3 + |Decimal(n)|;
      CursorOk(buf, Cursor(h, h, true))
      && ParseFrom(buf, Cursor(0, 0, false), req) == ParseFrom(buf, Cursor(h, h, true), req.(argsCount := n - 1))
  {
    hide Decimal, ParseFrom, Stands, Atoi;
    LineReached(buf, 0, false, req, '*', n);
    LineShape(buf, 0, '*', n);
    AtoiDecimal(buf, 1, n);
  }

  lemma BulkShape(buf: string, a: nat, d: string)
    requires Stands(buf, a, Bulk(d))
    ensures var t := a + 1 + |Decimal(|d|)|;
      && |Bulk(d)| == |Decimal(|d|)| + |d| + 5
      && Stands(buf, a, "$" + Decimal(|d|) + CRLF) && t + 4 + |d| <= |buf| && buf[t+2..t+2+|d|] == d
  {
    hide Decimal;
    var line := "$" + Decimal(|d|) + CRLF;
    assert Bulk(d) == line + (d + CRLF);
    StandsParts(buf, a, line, d + CRLF);
    StandsParts(buf, a + |line|, d, CRLF);
  }

  /** A printed bulk string is cut out byte for byte, whatever it contains. */
  lemma BulkRead(buf: string, a: nat, d: string, req: Request)
    requires Stands(buf, a, Bulk(d)) && 0 < |d| <= INT32_MAX
    ensures var turn := BulkTurn(d, a + |Bulk(d)|, req);
      && (turn.Go? ==> CursorOk(buf, turn.cur))
      && ParseFrom(buf, Cursor(a, a, true), req) == Resume(buf, turn)
  {
    hide Decimal, ParseFrom, Stands, Atoi, Bulk, FirstNonDigit;
    var k := |Decimal(|d|)|;
    var t := a + 1 + k;
    BulkShape(buf, a, d);
    LineReached(buf, a, true, req, '$', |d|);
    LineShape(buf, a, '$', |d|);
    AtoiDecimal(buf, a + 1, |d|);
    DecimalDigits(buf, a + 1, |d|);
    DigitRun(buf, a + 1, k, t + 2);
  }

  ghost predicate Printable(d: string) {
    0 < |d| <= INT32_MAX
  }

  lemma BulksLength(ds: seq<string>)
    requires ds != []
    ensures |Bulks(ds)| == |Bulk(ds[0])| + |Bulks(ds[1..])|
  {
  }

  lemma BulksStand(buf: string, a: nat, ds: seq<string>)
    requires ds != [] && Stands(buf, a, Bulks(ds))
    ensures Stands(buf, a, Bulk(ds[0])) && Stands(buf, a + |Bulk(ds[0])|, Bulks(ds[1..]))
  {
    hide Bulk;
    StandsParts(buf, a, Bulk(ds[0]), Bulks(ds[1..]));
  }

  lemma {:induction false} ArgsRead(buf: string, a: nat, ds: seq<string>, req: Request)
    requires ds != [] && Stands(buf, a, Bulks(ds)) && (forall d | d in ds :: Printable(d))
    requires req.command != "" && |req.args| + |ds| == req.argsCount
    ensures ParseFrom(buf, Cursor(a, a, true), req) == Parsed(a + |Bulks(ds)|, req.(args := req.args + ds, ok := true))
    decreases |ds|
  {
    hide ParseFrom, Bulk, Stands;
    BulksStand(buf, a, ds);
    assert Printable(ds[0]);
    BulkRead(buf, a, ds[0], req);
    var a' := a + |Bulk(ds[0])|;
    var req' := req.(args := req.args + [ds[0]]);
    if |ds| == 1 {
      assert ds == [ds[0]] && Bulks(ds[1..]) == "";
    } else {
      ArgsRead(buf, a', ds[1..], req');
      assert req'.args + ds[1..] == req.args + ds;
    }
  }

  /** What parse can handle: a command and at least one argument, none of them empty. */
  ghost predicate IsRequest(ds: seq<string>) {
    2 <= |ds| <= INT32_MAX && forall d | d in ds :: Printable(d)
  }

  /** A printed request is parsed back unchanged, and exactly its bytes are consumed, whatever follows. */
  lemma RequestRead(ds: seq<string>, rest: string)
    requires IsRequest(ds)
    ensures Parse(Print(ds) + rest) == Parsed(|Print(ds)|, Request(ds[0], ds[1..], |ds| - 1, true))
  {
    hide ParseFrom, Decimal, Bulk, Bulks;
    var buf := Print(ds) + rest;
    var head := "*" + Decimal(|ds|) + CRLF;
    var h := |head|;
    assert Printable(ds[0]);
    assert buf[0..h] == head;
    HeaderRead(buf, |ds|, EMPTY);
    var req := EMPTY.(argsCount := |ds| - 1);
    assert buf[h..h+|Bulks(ds)|] == Bulks(ds);
    BulksStand(buf, h, ds);
    BulkRead(buf, h, ds[0], req);
    var req' := req.(command := ds[0]);
    ArgsRead(buf, h + |Bulk(ds[0])|, ds[1..], req');
    BulksLength(ds);
    assert [] + ds[1..] == ds[1..];
  }

  function PrintAll(rs: seq<seq<string>>): string {
    if rs == [] then "" else Print(rs[0]) + PrintAll(rs[1..])
  }

  lemma NothingToParse()
    ensures ParseAll("") == ([], "")
  {
  }

  /** Binary-safe round trip: any pipeline of printed requests is recovered in order and used up. */
  lemma {:induction false} PipelineRoundTrip(rs: seq<seq<string>>)
    requires forall r | r in rs :: IsRequest(r)
    ensures ParseAll(PrintAll(rs)) == (rs, "")
  {
    hide Parse, Print, IsRequest;
    if rs == [] {
      NothingToParse();
    } else {
      var buf, rest := PrintAll(rs), PrintAll(rs[1..]);
      RequestRead(rs[0], rest);
      PipelineRoundTrip(rs[1..]);
      assert buf[|Print(rs[0])|..] == rest;
      FirstAndRest(rs[0], rs);
    }
  }

  lemma FirstAndRest(r: seq<string>, rs: seq<seq<string>>)
    requires IsRequest(r) && rs != [] && rs[0] == r
    ensures [r[0]] + r[1..] == r && [r] + rs[1..] == rs
  {
  }

  // ---------------------------------------------------------------- the object

  class NativeParser {
    var command: string
    var args: seq<string>
    var argsCount: int
    var ok: bool

    function Req(): Request
      reads this
    {
      Request(command, args, argsCount, ok)
    }

    constructor ()
      ensures Req() == EMPTY
    {
      command, args, argsCount, ok := "", [], 0, false;
    }

    method Init()
      modifies this
      ensures Req() == EMPTY
    {
      command, args, argsCount, ok := "", [], 0, false;
    }

    /** std::atoi */
    method ReadInt(buf: string, i: nat) returns (n: Option<int>)
      requires i <= |buf|
      ensures n == Atoi(buf, i)
    {
      var j := i;
      while j < |buf| && IsSpace(buf[j])
        invariant i <= j <= |buf| && SkipWhitespace(buf, j) == SkipWhitespace(buf, i)
      {
        j := j + 1;
      }
      if j == |buf| {
        return None;
      }
      var sign := 1;
      var k := j;
      if buf[j] == '-' {
        sign := -1;
        k := j + 1;
      } else if buf[j] == '+' {
        k := j + 1;
      }
      ghost var from := k;
      var acc: nat := 0;
      while k < |buf| && IsDigit(buf[k])
        invariant from <= k <= |buf| && DigitsFrom(buf, k, acc) == DigitsFrom(buf, from, 0)
      {
        acc := acc * 10 + DigitValue(buf[k]);
        k := k + 1;
      }
      n := if k == |buf| then None else Some(sign * acc);
    }

    /** convert_to_number: the number as 32 unsigned bits, or why there is none. */
    method ConvertToNumber(buf: string, i: nat) returns (r: Result<nat, Outcome>)
      requires i <= |buf|
      ensures r == match Atoi(buf, i)
        case None => Err(Overrun)
        case Some(n) => if n % UINT32 == 0 then Err(Failed(InvalidRequest)) else Ok(n % UINT32)
    {
      var n := ReadInt(buf, i);
      if n.None? {
        return Err(Overrun);
      }
      r := if n.value % UINT32 == 0 then Err(Failed(InvalidRequest)) else Ok(n.value % UINT32);
    }

    method FindFirstNonNumeric(buf: string, begin: nat, end: nat) returns (j: nat)
      requires begin <= end <= |buf|
      ensures j == FirstNonDigit(buf, begin, end)
    {
      j := begin;
      while j < end && IsDigit(buf[j])
        invariant begin <= j <= end && FirstNonDigit(buf, j, end) == FirstNonDigit(buf, begin, end)
      {
        j := j + 1;
      }
    }

    /** The handling of one line of parse; `stop` tells whether parse returns or throws. */
    method ParseLine(buf: string, t: nat, cur: Cursor) returns (stop: bool, next: Cursor, outcome: Outcome)
      requires cur.begin <= t && t + 2 <= |buf| && buf[t] == '\r'
      modifies this
      ensures stop ==> LineTurn(buf, t, cur, old(Req())) == Stop(outcome)
      ensures stop && outcome.Parsed? ==> outcome.req == Req()
      ensures !stop ==> LineTurn(buf, t, cur, old(Req())) == Go(next, Req())
    {
      stop, next, outcome := true, cur, Overrun;
      var begin := cur.begin;
      if buf[begin] == '*' {
        if cur.named { outcome := Failed(InvalidRequest); return; }
        if args != [] { outcome := Failed(ArgsNotEmpty); return; }
        var n := ConvertToNumber(buf, begin + 1);
        if n.Err? { outcome := n.error; return; }
        argsCount := (n.value - 1) % UINT32;
        stop, next := false, Cursor(t + 2, t + 2, true);
        return;
      }
      if buf[begin] != '$' { outcome := Failed(Unexpected(buf[begin])); return; }
      if !cur.named { outcome := Failed(InlineNotSupported); return; }
      var endNumber := FindFirstNonNumeric(buf, begin + 1, t + 2);
      if endNumber == t + 2 { outcome := Failed(InvalidRequest); return; }
      var n := ConvertToNumber(buf, begin + 1);
      if n.Err? { outcome := n.error; return; }
      var number := n.value;
      var end := t + 2 + number + 2;
      if end > |buf| || endNumber + 2 > |buf| { outcome := Failed(InvalidRequest); return; }
      var payload := buf[endNumber + 2..endNumber + 2 + number];
      if command == "" {
        command := payload;
        stop, next := false, Cursor(end, end, true);
        return;
      }
      args := args + [payload];
      if |args| == argsCount {
        ok := true;
        outcome := Parsed(end, Req());
        return;
      }
      stop, next := false, Cursor(end, end, true);
    }

    /** parse */
    method ParseBuffer(buf: string) returns (outcome: Outcome)
      modifies this
      ensures outcome == ParseFrom(buf, Cursor(0, 0, false), old(Req()).(command := ""))
      ensures outcome.Parsed? ==> outcome.req == Req()
    {
      command := "";
      ghost var start := Req();
      var cur := Cursor(0, 0, false);
      while cur.s < |buf| - 1
        invariant CursorOk(buf, cur)
        invariant ParseFrom(buf, cur, Req()) == ParseFrom(buf, Cursor(0, 0, false), start)
        decreases |buf| - cur.s
      {
        hide LineTurn, ParseFrom;
        ParseStep(buf, cur, Req());
        var t := cur.s;
        while t < |buf| && buf[t] == ' '
          invariant cur.s <= t <= |buf| && SkipBlanks(buf, t) == SkipBlanks(buf, cur.s)
        {
          t := t + 1;
        }
        if t == |buf| || (buf[t] == '\r' && t + 1 == |buf|) {
          return Overrun;
        }
        if buf[t] == '\r' && buf[t+1] == '\n' {
          var stop, next, o := ParseLine(buf, t, cur);
          if stop {
            return o;
          }
          cur := next;
        } else {
          cur := cur.(s := t + 1);
        }
      }
      outcome := if |buf| > MAX_INLINE_BUFFER_SIZE then Failed(TooBig) else NeedMore(Req());
    }
  }
}
