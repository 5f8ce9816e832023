/**
 Which byte strings the RESP request parser (native_protocol_parser.cc) accepts: a header line,
 then as many bulk strings as it announces, and nothing else; and what becomes of the others.
 */
module RespGrammar {
  import opened Wrappers
  import opened Resp

  // ------------------------------------------------------------------ scanning

  predicate EndsLine(buf: string, t: nat) {
    t + 2 <= |buf| && buf[t] == '\r' && buf[t+1] == '\n'
  }

  /** The first CRLF at or after position i. */
  function LineEnd(buf: string, i: nat): (r: Option<nat>)
    requires i <= |buf|
    ensures r.Some? ==> i <= r.value && EndsLine(buf, r.value) && forall j | i <= j < r.value :: !EndsLine(buf, j)
    ensures r.None? ==> forall j | i <= j :: !EndsLine(buf, j)
    decreases |buf| - i
  {
    if i == |buf| then None else if EndsLine(buf, i) then Some(i) else LineEnd(buf, i + 1)
  }

  /** The scan for a line's end would read behind a buffer that stops like this. */
  predicate RunsOver(buf: string, s: nat) {
    s + 2 <= |buf| && buf[|buf|-2] == ' ' && (buf[|buf|-1] == ' ' || buf[|buf|-1] == '\r')
  }

  lemma {:induction false} BlanksEnd(buf: string, s: nat)
    requires s <= |buf|
    ensures var t := SkipBlanks(buf, s);
      && LineEnd(buf, t) == LineEnd(buf, s)
      && (t < |buf| ==> buf[t] != ' ') && forall j | s <= j < t :: buf[j] == ' '
    decreases |buf| - s
  {
    if s < |buf| && buf[s] == ' ' {
      BlanksEnd(buf, s + 1);
    }
  }

  /** What becomes of a buffer in which no line ends any more. */
  function Unended(buf: string, s: nat, req: Request): Outcome {
    if RunsOver(buf, s) then Overrun
    else if |buf| > MAX_INLINE_BUFFER_SIZE then Failed(TooBig)
    else NeedMore(req)
  }

  /** A line's turn is next, or the buffer is at its end. */
  ghost predicate ScanEnds(buf: string, cur: Cursor, req: Request)
    requires CursorOk(buf, cur)
  {
    match LineEnd(buf, cur.s)
    case None => ParseFrom(buf, cur, req) == Unended(buf, cur.s, req)
    case Some(t) => ParseFrom(buf, cur, req) == Resume(buf, LineTurn(buf, t, cur, req))
  }

  lemma ScanStops(buf: string, cur: Cursor, req: Request)
    requires CursorOk(buf, cur) && (cur.s >= |buf| - 1 || !MovesOn(buf, SkipBlanks(buf, cur.s)))
    ensures ScanEnds(buf, cur, req)
  {
    hide LineTurn;
    BlanksEnd(buf, cur.s);
  }

  /** The scan finds the first CRLF, or ends as the last two bytes say. */
  lemma {:induction false} ScanExact(buf: string, cur: Cursor, req: Request)
    requires CursorOk(buf, cur)
    ensures ScanEnds(buf, cur, req)
    decreases |buf| - cur.s
  {
    hide LineTurn, ParseFrom;
    var t := SkipBlanks(buf, cur.s);
    if cur.s < |buf| - 1 && MovesOn(buf, t) {
      BlanksEnd(buf, cur.s);
      ScanExact(buf, cur.(s := t + 1), req);
      OtherByte(buf, cur, req);
      if LineEnd(buf, t + 1).Some? {
        LineTurnFrom(buf, LineEnd(buf, t + 1).value, cur, t + 1, req);
      }
    } else {
      ScanStops(buf, cur, req);
    }
  }

  predicate MovesOn(buf: string, t: nat) {
    t < |buf| && !EndsLine(buf, t) && !(buf[t] == '\r' && t + 1 == |buf|)
  }

  lemma OtherByte(buf: string, cur: Cursor, req: Request)
    requires CursorOk(buf, cur) && cur.s < |buf| - 1 && MovesOn(buf, SkipBlanks(buf, cur.s))
    ensures ParseFrom(buf, cur, req) == ParseFrom(buf, cur.(s := SkipBlanks(buf, cur.s) + 1), req)
  {
    hide LineTurn;
  }

  /** The turn a line takes does not depend on where its scan started. */
  lemma LineTurnFrom(buf: string, t: nat, cur: Cursor, s: nat, req: Request)
    requires cur.begin <= t && EndsLine(buf, t)
    ensures LineTurn(buf, t, cur, req) == LineTurn(buf, t, cur.(s := s), req)
  {
    hide Atoi, FirstNonDigit, BulkTurn;
  }

  // ------------------------------------------------------------------- grammar

  /** The number behind the first byte of a line, as 32 unsigned bits. */
  function Number(buf: string, a: nat): (n: Option<nat>)
    requires a < |buf|
  {
    match Atoi(buf, a + 1) case None => None case Some(n) => Some(n % UINT32)
  }

  /** The header at the start of the buffer: how many strings follow, and from where on. */
  function Header(buf: string): (r: Option<(nat, nat)>)
    ensures r.Some? ==> r.value.1 <= |buf|
  {
    match LineEnd(buf, 0)
    case None => None
    case Some(t) =>
      if buf[0] != '*' || Number(buf, 0).None? || Number(buf, 0).value == 0 then None
      else Some((Number(buf, 0).value, t + 2))
  }

  /** The bulk string at a, counted from behind its number and one CRLF, and where the next one is. */
  function BulkAt(buf: string, a: nat): (r: Option<(string, nat)>)
    requires a <= |buf|
    ensures r.Some? ==> a < r.value.1 <= |buf| && r.value.0 != ""
  {
    match LineEnd(buf, a)
    case None => None
    case Some(t) =>
      if buf[a] != '$' || Number(buf, a).None? || Number(buf, a).value == 0 then None
      else
        var size, e := Number(buf, a).value, FirstNonDigit(buf, a + 1, t);
        if t + 4 + size > |buf| then None
        else Some((buf[e+2..e+2+size], t + 4 + size))
  }

  /** The strings ds stand one after the other from a to end. */
  predicate BulksAt(buf: string, a: nat, ds: seq<string>, end: nat)
    requires a <= |buf|
    decreases |ds|
  {
    if ds == [] then end == a
    else
      match BulkAt(buf, a)
      case None => false
      case Some((d, next)) => d == ds[0] && BulksAt(buf, next, ds[1..], end)
  }

  lemma {:induction false} DigitsEnd(buf: string, i: nat, t: nat, end: nat)
    requires i <= t < end <= |buf| && !IsDigit(buf[t])
    ensures FirstNonDigit(buf, i, end) == FirstNonDigit(buf, i, t)
    decreases t - i
  {
    if i < t && IsDigit(buf[i]) {
      DigitsEnd(buf, i + 1, t, end);
    }
  }

  /** How a line that should be a bulk string and is none is refused. */
  function Refusal(buf: string, a: nat): Outcome
    requires a < |buf|
  {
    if buf[a] == '*' then Failed(InvalidRequest)
    else if buf[a] != '$' then Failed(Unexpected(buf[a]))
    else if Number(buf, a).None? then Overrun
    else Failed(InvalidRequest)
  }

  lemma RefusedLine(buf: string, a: nat, t: nat, req: Request)
    requires a <= |buf| && LineEnd(buf, a) == Some(t) && BulkAt(buf, a).None?
    ensures LineTurn(buf, t, Cursor(a, a, true), req) == Stop(Refusal(buf, a))
  {
    hide BulkTurn, Atoi, LineEnd, FirstNonDigit;
    assert EndsLine(buf, t);
    if buf[a] == '$' {
      DigitsEnd(buf, a + 1, t, t + 2);
    }
  }

  lemma BulkLine(buf: string, a: nat, t: nat, req: Request)
    requires a <= |buf| && LineEnd(buf, a) == Some(t) && BulkAt(buf, a).Some?
    ensures var (d, next) := BulkAt(buf, a).value;
      LineTurn(buf, t, Cursor(a, a, true), req) == BulkTurn(d, next, req)
  {
    hide BulkTurn, Atoi, LineEnd, FirstNonDigit;
    assert EndsLine(buf, t);
    DigitsEnd(buf, a + 1, t, t + 2);
  }

  /** One line further: a bulk string takes its turn, and anything else is refused or unfinished. */
  lemma NextBulk(buf: string, a: nat, req: Request)
    requires a <= |buf|
    ensures match BulkAt(buf, a)
      case Some((d, next)) => ParseFrom(buf, Cursor(a, a, true), req) == Resume(buf, BulkTurn(d, next, req))
      case None =>
        ParseFrom(buf, Cursor(a, a, true), req) == if LineEnd(buf, a).None? then Unended(buf, a, req) else Refusal(buf, a)
  {
    hide ParseFrom, LineTurn, BulkAt, LineEnd, Unended, Refusal;
    ScanExact(buf, Cursor(a, a, true), req);
    BulkHasLine(buf, a);
    if LineEnd(buf, a).Some? {
      if BulkAt(buf, a).Some? {
        BulkLine(buf, a, LineEnd(buf, a).value, req);
      } else {
        RefusedLine(buf, a, LineEnd(buf, a).value, req);
      }
    }
  }

  lemma BulkHasLine(buf: string, a: nat)
    requires a <= |buf|
    ensures BulkAt(buf, a).Some? ==> LineEnd(buf, a).Some?
  {
  }

  /** With the command read, parsing ends well exactly when the missing arguments follow. */
  lemma {:induction false} ArgsExact(buf: string, a: nat, req: Request, end: nat, r: Request)
    requires a <= |buf| && req.command != ""
    ensures ParseFrom(buf, Cursor(a, a, true), req) == Parsed(end, r) <==>
      && |req.args| < |r.args| == r.argsCount && req.args == r.args[..|req.args|]
      && r == req.(args := r.args, ok := true) && BulksAt(buf, a, r.args[|req.args|..], end)
    decreases |buf| - a
  {
    hide ParseFrom, BulkAt, LineEnd;
    NextBulk(buf, a, req);
    var n := |req.args|;
    if BulkAt(buf, a).Some? {
      var (d, next) := BulkAt(buf, a).value;
      var req' := req.(args := req.args + [d]);
      ArgsExact(buf, next, req', end, r);
      if n < |r.args| && req.args == r.args[..n] {
        var ds := r.args[n..];
        assert ds[1..] == r.args[n+1..];
        assert r.args[..n+1] == r.args[..n] + [r.args[n]];
        assert |ds| == 1 ==> ds[1..] == [];
      }
    }
  }

  /** A header, and from there to end as many strings as it announces. */
  predicate IsFrame(buf: string, ds: seq<string>, end: nat) {
    match Header(buf)
    case None => false
    case Some((count, h)) => count == |ds| && BulksAt(buf, h, ds, end)
  }

  lemma HeaderLine(buf: string)
    ensures match LineEnd(buf, 0)
      case None => Header(buf).None?
      case Some(t) =>
        LineTurn(buf, t, Cursor(0, 0, false), EMPTY) ==
        if Header(buf).Some? then Go(Cursor(t + 2, t + 2, true), EMPTY.(argsCount := Header(buf).value.0 - 1))
        else Stop(FirstRefusal(buf))
  {
    hide Atoi, LineEnd, FirstNonDigit;
    assert LineEnd(buf, 0).Some? ==> EndsLine(buf, LineEnd(buf, 0).value);
  }

  /** How a first line that is no header is refused. */
  function FirstRefusal(buf: string): Outcome
    requires buf != ""
  {
    if buf[0] == '$' then Failed(InlineNotSupported)
    else if buf[0] != '*' then Failed(Unexpected(buf[0]))
    else if Number(buf, 0).None? then Overrun
    else Failed(InvalidRequest)
  }

  lemma FirstLine(buf: string)
    ensures match Header(buf)
      case Some((count, h)) => Parse(buf) == ParseFrom(buf, Cursor(h, h, true), EMPTY.(argsCount := count - 1))
      case None => Parse(buf) == if LineEnd(buf, 0).None? then Unended(buf, 0, EMPTY) else FirstRefusal(buf)
  {
    HeaderEnd(buf);
    hide ParseFrom, LineTurn, Header, LineEnd, FirstRefusal, Unended;
    ScanExact(buf, Cursor(0, 0, false), EMPTY);
    HeaderLine(buf);
  }

  lemma HeaderEnd(buf: string)
    ensures Header(buf).Some? ==> LineEnd(buf, 0).Some? && Header(buf).value.1 == LineEnd(buf, 0).value + 2
  {
  }

  /** Exactly the header and the strings it announces are accepted, and they are the request. */
  lemma AcceptsExactly(buf: string, end: nat, r: Request)
    ensures Parse(buf) == Parsed(end, r) <==>
      r.ok && r.argsCount == |r.args| >= 1 && IsFrame(buf, [r.command] + r.args, end)
  {
    FirstLine(buf);
    hide Parse, ParseFrom, Header, LineEnd, BulkAt;
    if Header(buf).Some? {
      var (count, h) := Header(buf).value;
      var req := EMPTY.(argsCount := count - 1);
      NextBulk(buf, h, req);
      assert ([r.command] + r.args)[1..] == r.args;
      if BulkAt(buf, h).Some? {
        var (d, next) := BulkAt(buf, h).value;
        ArgsExact(buf, next, req.(command := d), end, r);
        assert r.args[0..] == r.args && r.args[..0] == [];
      }
    }
  }

  // ------------------------------------------------------------------ refusals

  /** The request once the strings ds are read. */
  function Filled(req: Request, ds: seq<string>): Request
    decreases |ds|
  {
    if ds == [] then req
    else if req.command == "" then Filled(req.(command := ds[0]), ds[1..])
    else Filled(req.(args := req.args + [ds[0]]), ds[1..])
  }

  /** The strings do not complete the request. */
  predicate LeavesOpen(req: Request, ds: seq<string>) {
    || req.argsCount <= |req.args|
    || |req.args| + |ds| < req.argsCount + (if req.command == "" then 1 else 0)
  }

  lemma {:induction false} ReadStrings(buf: string, a: nat, req: Request, ds: seq<string>, next: nat)
    requires a <= |buf| && BulksAt(buf, a, ds, next) && LeavesOpen(req, ds)
    ensures a <= next <= |buf|
    ensures ParseFrom(buf, Cursor(a, a, true), req) == ParseFrom(buf, Cursor(next, next, true), Filled(req, ds))
    decreases |ds|
  {
    hide ParseFrom, BulkAt, LineEnd;
    if ds != [] {
      NextBulk(buf, a, req);
      var (d, b) := BulkAt(buf, a).value;
      var req' := if req.command == "" then req.(command := d) else req.(args := req.args + [d]);
      ReadStrings(buf, b, req', ds[1..], next);
    }
  }

  /** After the header and some of its strings, anything but a string is refused or waited for. */
  lemma RefusesExactly(buf: string, ds: seq<string>, a: nat)
    requires Header(buf).Some? && (|ds| < Header(buf).value.0 || Header(buf).value.0 == 1)
    requires BulksAt(buf, Header(buf).value.1, ds, a) && a <= |buf| && BulkAt(buf, a).None?
    ensures Parse(buf) ==
      if LineEnd(buf, a).None? then Unended(buf, a, Filled(EMPTY.(argsCount := Header(buf).value.0 - 1), ds))
      else Refusal(buf, a)
  {
    FirstLine(buf);
    hide Parse, ParseFrom, Header, LineEnd, BulkAt, BulksAt, Filled, Unended, Refusal;
    var (count, h) := Header(buf).value;
    var req := EMPTY.(argsCount := count - 1);
    ReadStrings(buf, h, req, ds, a);
    NextBulk(buf, a, Filled(req, ds));
  }

  lemma {:induction false} StringsNotEmpty(buf: string, a: nat, ds: seq<string>, end: nat)
    requires a <= |buf| && BulksAt(buf, a, ds, end)
    ensures forall d | d in ds :: d != ""
    decreases |ds|
  {
    if ds != [] {
      StringsNotEmpty(buf, BulkAt(buf, a).value.1, ds[1..], end);
      assert ds == [ds[0]] + ds[1..];
    }
  }

  /**
   A printed request is read back if and only if it has an argument and no string in it is empty:
   a command alone never comes back, nor does a request with an empty string.
   */
  lemma RoundTripExact(ds: seq<string>, rest: string)
    requires 0 < |ds| <= INT32_MAX && forall d | d in ds :: |d| <= INT32_MAX
    ensures Parse(Print(ds) + rest) == Parsed(|Print(ds)|, Request(ds[0], ds[1..], |ds| - 1, true)) <==>
      |ds| >= 2 && forall d | d in ds :: d != ""
  {
    hide Parse, Print, LineEnd;
    var buf, end, r := Print(ds) + rest, |Print(ds)|, Request(ds[0], ds[1..], |ds| - 1, true);
    if |ds| >= 2 && forall d | d in ds :: d != "" {
      RequestRead(ds, rest);
    } else if Parse(buf) == Parsed(end, r) {
      AcceptsExactly(buf, end, r);
      assert [r.command] + r.args == ds;
      StringsNotEmpty(buf, Header(buf).value.1, ds, end);
    }
  }

  /** A parser that still holds the arguments of an earlier request takes no other. */
  lemma UsedParserRefuses(buf: string, req: Request)
    requires LineEnd(buf, 0).Some? && buf[0] == '*' && req.args != []
    ensures ParseFrom(buf, Cursor(0, 0, false), req) == Failed(ArgsNotEmpty)
  {
    ScanExact(buf, Cursor(0, 0, false), req);
  }

  // ------------------------------------------------------------------- numbers

  lemma {:induction false} BlanksSkipped(buf: string, i: nat, j: nat)
    requires i <= j < |buf| && (forall k | i <= k < j :: IsSpace(buf[k])) && !IsSpace(buf[j])
    ensures SkipWhitespace(buf, i) == j
    decreases j - i
  {
    if i < j {
      BlanksSkipped(buf, i + 1, j);
    }
  }

  /** atoi reads a decimal number behind white space and a sign. */
  lemma SignedNumber(buf: string, i: nat, j: nat, sign: char, n: nat)
    requires i <= j < |buf| && (forall k | i <= k < j :: IsSpace(buf[k])) && buf[j] == sign && (sign == '-' || sign == '+')
    requires Stands(buf, j + 1, Decimal(n)) && j + 1 + |Decimal(n)| < |buf| && !IsDigit(buf[j + 1 + |Decimal(n)|])
    ensures Atoi(buf, i) == Some(if sign == '-' then 0 - n else n)
  {
    hide Decimal, Stands, SkipWhitespace;
    BlanksSkipped(buf, i, j);
    DecimalValue(buf, j + 1, n);
  }
}
