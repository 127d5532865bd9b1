/** The time lists of the schedule form: printing and parsing. */
module ScheduleTimes {
  import opened Wrappers
  import opened Strings

  /** The characters that `int()` reads as decimal digits, with their values. */
  type Numerals = char -> Option<nat>

  predicate AsciiDigit(c: char) {
    '0' <= c <= '9'
  }

  ghost predicate ReadsAscii(numerals: Numerals) {
    forall c :: AsciiDigit(c) ==> numerals(c) == Some(c as int - '0' as int)
  }

  /** Digits, with single underscores between them. */
  function Digits(numerals: Numerals, s: string): Option<nat>
    decreases |s|
  {
    if s == "" then None else
    var last := numerals(s[|s| - 1]);
    if last.None? then None
    else if |s| == 1 then last
    else
      var front := if s[|s| - 2] == '_' then s[..|s| - 2] else s[..|s| - 1];
      match Digits(numerals, front)
      case None => None
      case Some(n) => Some(10 * n + last.value)
  }

  /** `int(s)`; None stands for ValueError. */
  function ParseInt(numerals: Numerals, s: string): Option<int> {
    var body := Strip(s);
    if body != "" && (body[0] == '+' || body[0] == '-') then
      match Digits(numerals, body[1..])
      case None => None
      case Some(n) => var v: int := n; Some(if body[0] == '-' then -v else v)
    else
      match Digits(numerals, body)
      case None => None
      case Some(n) => Some(n)
  }

  function TwoDigits(n: nat): string
    requires n < 100
  {
    [('0' as int + n / 10) as char, ('0' as int + n % 10) as char]
  }

  function Format(hour: nat, minute: nat): string
    requires hour < 24 && minute < 60
  {
    TwoDigits(hour) + ":" + TwoDigits(minute)
  }

  function DigitValue(c: char): nat
    requires AsciiDigit(c)
  {
    c as int - '0' as int
  }

  /** HH:MM on a 24-hour clock, two digits each. */
  predicate Canonical(t: string) {
    && |t| == 5 && t[2] == ':'
    && AsciiDigit(t[0]) && AsciiDigit(t[1]) && AsciiDigit(t[3]) && AsciiDigit(t[4])
    && 10 * DigitValue(t[0]) + DigitValue(t[1]) < 24
    && 10 * DigitValue(t[3]) + DigitValue(t[4]) < 60
  }

  lemma FormatIsCanonical(hour: nat, minute: nat)
    requires hour < 24 && minute < 60
    ensures Canonical(Format(hour, minute))
  {}

  lemma CanonicalIsFormat(t: string) returns (hour: nat, minute: nat)
    requires Canonical(t)
    ensures hour < 24 && minute < 60 && t == Format(hour, minute)
  {
    hour := 10 * DigitValue(t[0]) + DigitValue(t[1]);
    minute := 10 * DigitValue(t[3]) + DigitValue(t[4]);
    var f := Format(hour, minute);
    assert f[0] == t[0] && f[1] == t[1] && f[2] == t[2] && f[3] == t[3] && f[4] == t[4];
  }

  /** One trimmed, non-empty piece of the input. */
  function ParseTime(numerals: Numerals, piece: string): Option<string> {
    var parts := Split(piece, ':');
    if |parts| != 2 then None else
    var hour, minute := ParseInt(numerals, parts[0]), ParseInt(numerals, parts[1]);
    if hour.None? || minute.None? then None
    else if !(0 <= hour.value <= 23 && 0 <= minute.value <= 59) then None
    else Some(Format(hour.value, minute.value))
  }

  /** One round of the loop over the pieces. */
  function AddPiece(numerals: Numerals, times: seq<string>, raw: string): Result<seq<string>, string> {
    var piece := Strip(raw);
    if piece == "" then Ok(times) else
    match ParseTime(numerals, piece)
    case None => Err(piece)
    case Some(t) => Ok(times + [t])
  }

  function ParsePieces(numerals: Numerals, pieces: seq<string>): Result<seq<string>, string> {
    if pieces == [] then Ok([]) else
    match ParsePieces(numerals, pieces[..|pieces| - 1])
    case Err(e) => Err(e)
    case Ok(times) => AddPiece(numerals, times, pieces[|pieces| - 1])
  }

  function Parsed(numerals: Numerals, value: string): Result<seq<string>, string> {
    if Strip(value) == "" then Ok([]) else ParsePieces(numerals, Split(Strip(value), ','))
  }

  /** The pieces between the commas, without the blanks around them and without the blank ones. */
  function Pieces(value: string): seq<string> {
    NonBlank(Split(Strip(value), ','))
  }

  function NonBlank(parts: seq<string>): seq<string> {
    if parts == [] then []
    else NonBlank(parts[..|parts| - 1]) + (if Strip(parts[|parts| - 1]) == "" then [] else [Strip(parts[|parts| - 1])])
  }

  /** One colon, and on its sides what `int()` reads as this hour and this minute. */
  ghost predicate ReadsAs(numerals: Numerals, piece: string, hour: nat, minute: nat) {
    hour < 24 && minute < 60 &&
    exists i ::
      0 <= i < |piece| && piece[i] == ':' && ':' !in piece[..i] && ':' !in piece[i + 1..] &&
      ParseInt(numerals, piece[..i]) == Some(hour) && ParseInt(numerals, piece[i + 1..]) == Some(minute)
  }

  ghost predicate Readable(numerals: Numerals, piece: string) {
    exists hour, minute :: ReadsAs(numerals, piece, hour, minute)
  }

  /** HH:MM, two digits each, for this hour and this minute. */
  predicate Shows(t: string, hour: nat, minute: nat) {
    && |t| == 5 && t[2] == ':'
    && AsciiDigit(t[0]) && AsciiDigit(t[1]) && AsciiDigit(t[3]) && AsciiDigit(t[4])
    && 10 * DigitValue(t[0]) + DigitValue(t[1]) == hour
    && 10 * DigitValue(t[3]) + DigitValue(t[4]) == minute
  }

  /** Every piece is read as an hour and a minute, and there is one time for each piece, in their order, that shows
      them. */
  ghost predicate AllShown(numerals: Numerals, pieces: seq<string>, times: seq<string>) {
    && |times| == |pieces|
    && (forall i :: 0 <= i < |pieces| ==> Readable(numerals, pieces[i]))
    && (forall i, hour, minute ::
          0 <= i < |times| && ReadsAs(numerals, pieces[i], hour, minute) ==> Shows(times[i], hour, minute))
  }

  /** This is the first piece that is not read as an hour and a minute. */
  ghost predicate FirstBad(numerals: Numerals, pieces: seq<string>, bad: string) {
    exists i ::
      && 0 <= i < |pieces| && bad == pieces[i] && !Readable(numerals, pieces[i])
      && forall j :: 0 <= j < i ==> Readable(numerals, pieces[j])
  }

  /** A list is accepted if and only if every piece is read as an hour and a minute; otherwise the error names the
      first piece that is not. */
  method ParseTimes(numerals: Numerals, value: string) returns (r: Result<seq<string>, string>)
    ensures r == Parsed(numerals, value)
    ensures match r
            case Ok(times) => AllShown(numerals, Pieces(value), times)
            case Err(bad) => FirstBad(numerals, Pieces(value), bad)
  {
    ParsedExactly(numerals, value);
    if value == "" {
      return Ok([]);
    }
    var stripped := Strip(value);
    if stripped == "" {
      return Ok([]);
    }
    var times := [];
    var pieces := Split(stripped, ',');
    for i := 0 to |pieces|
      invariant ParsePieces(numerals, pieces[..i]) == Ok(times)
    {
      assert pieces[..i + 1][..i] == pieces[..i];
      var piece := Strip(pieces[i]);
      if piece != "" {
        var t := ParseTime(numerals, piece);
        if t.None? {
          ErrorStops(numerals, pieces, i + 1);
          return Err(piece);
        }
        times := times + [t.value];
      }
    }
    assert pieces[..|pieces|] == pieces;
    return Ok(times);
  }

  lemma {:induction false} ErrorStops(numerals: Numerals, pieces: seq<string>, i: nat)
    requires i <= |pieces| && ParsePieces(numerals, pieces[..i]).Err?
    ensures ParsePieces(numerals, pieces) == ParsePieces(numerals, pieces[..i])
    decreases |pieces| - i
  {
    if i == |pieces| {
      assert pieces[..i] == pieces;
    } else {
      assert pieces[..i + 1][..i] == pieces[..i];
      ErrorStops(numerals, pieces, i + 1);
    }
  }

  /** What the form displays. */
  function Show(times: seq<string>): string {
    Join(times, ", ")
  }

  // ----- What is accepted -----

  lemma {:induction false} SplitJoins(s: string, sep: char)
    ensures |Split(s, sep)| == 1 <==> sep !in s
    ensures |Split(s, sep)| == 1 ==> Split(s, sep) == [s]
    ensures |Split(s, sep)| == 2 ==> s == Split(s, sep)[0] + [sep] + Split(s, sep)[1]
    ensures |Split(s, sep)| == 2 ==> sep !in Split(s, sep)[0] && sep !in Split(s, sep)[1]
  {
    if s != "" {
      SplitJoins(s[1..], sep);
      assert s == [s[0]] + s[1..];
    }
  }

  /** Split in two: there is one separator, and the parts are what stands on its sides. */
  lemma SplitInTwo(s: string, sep: char, i: nat)
    requires i < |s| && s[i] == sep && sep !in s[..i] && sep !in s[i + 1..]
    ensures Split(s, sep) == [s[..i], s[i + 1..]]
  {
    assert s == s[..i] + [sep] + s[i + 1..];
    SplitAtSeparator(s[..i], sep, s[i + 1..]);
    SplitWithoutSeparator(s[i + 1..], sep);
  }

  lemma FormatShows(hour: nat, minute: nat)
    requires hour < 24 && minute < 60
    ensures Shows(Format(hour, minute), hour, minute)
  {}

  lemma ReadingsAgree(numerals: Numerals, piece: string, hour: nat, minute: nat)
    requires ReadsAs(numerals, piece, hour, minute)
    ensures ParseTime(numerals, piece) == Some(Format(hour, minute))
    ensures Shows(Format(hour, minute), hour, minute)
  {
    var i :| 0 <= i < |piece| && piece[i] == ':' && ':' !in piece[..i] && ':' !in piece[i + 1..] &&
             ParseInt(numerals, piece[..i]) == Some(hour) && ParseInt(numerals, piece[i + 1..]) == Some(minute);
    SplitInTwo(piece, ':', i);
    FormatShows(hour, minute);
  }

  /** A piece is accepted exactly if it is read as an hour and a minute, and gives the time that shows them. */
  lemma ParseTimeExactly(numerals: Numerals, piece: string)
    ensures ParseTime(numerals, piece).Some? <==> Readable(numerals, piece)
    ensures forall hour, minute :: ReadsAs(numerals, piece, hour, minute) ==>
                                     ParseTime(numerals, piece).Some? &&
                                     Shows(ParseTime(numerals, piece).value, hour, minute)
  {
    forall hour, minute | ReadsAs(numerals, piece, hour, minute)
      ensures ParseTime(numerals, piece).Some? && Shows(ParseTime(numerals, piece).value, hour, minute)
    {
      ReadingsAgree(numerals, piece, hour, minute);
    }
    if ParseTime(numerals, piece).Some? {
      var parts := Split(piece, ':');
      SplitJoins(piece, ':');
      var hour, minute := ParseInt(numerals, parts[0]).value, ParseInt(numerals, parts[1]).value;
      var i := |parts[0]|;
      assert piece[i] == ':' && piece[..i] == parts[0] && piece[i + 1..] == parts[1];
      assert ReadsAs(numerals, piece, hour, minute);
    }
  }

  lemma {:induction false} ParsePiecesExactly(numerals: Numerals, parts: seq<string>)
    ensures match ParsePieces(numerals, parts)
            case Ok(times) => AllShown(numerals, NonBlank(parts), times)
            case Err(bad) => FirstBad(numerals, NonBlank(parts), bad)
    decreases |parts|
  {
    if parts != [] {
      ParsePiecesExactly(numerals, parts[..|parts| - 1]);
      var front, piece := NonBlank(parts[..|parts| - 1]), Strip(parts[|parts| - 1]);
      ParseTimeExactly(numerals, piece);
      match ParsePieces(numerals, parts[..|parts| - 1])
      case Ok(times) =>
        assert piece == "" ==> NonBlank(parts) == front;
        if piece != "" && ParseTime(numerals, piece).None? {
          assert NonBlank(parts)[|front|] == piece;
        }
      case Err(bad) =>
        assert front <= NonBlank(parts);
        StillFirst(numerals, front, NonBlank(parts), bad);
    }
  }

  lemma StillFirst(numerals: Numerals, front: seq<string>, pieces: seq<string>, bad: string)
    requires FirstBad(numerals, front, bad) && front <= pieces
    ensures FirstBad(numerals, pieces, bad)
  {
    var i :| 0 <= i < |front| && bad == front[i] && !Readable(numerals, front[i])
             && forall j :: 0 <= j < i ==> Readable(numerals, front[j]);
    assert forall j :: 0 <= j <= i ==> pieces[j] == front[j];
  }

  lemma ParsedExactly(numerals: Numerals, value: string)
    ensures match Parsed(numerals, value)
            case Ok(times) => AllShown(numerals, Pieces(value), times)
            case Err(bad) => FirstBad(numerals, Pieces(value), bad)
  {
    ParsePiecesExactly(numerals, Split(Strip(value), ','));
    if Strip(value) == "" {
      StripTrimmed("");
      assert NonBlank([""]) == [];
    }
  }

  // ----- What `int()` reads -----

  function Unsigned(body: string): string {
    if body != "" && (body[0] == '+' || body[0] == '-') then body[1..] else body
  }

  /** Digits at both ends, and an underscore only between two of them. */
  predicate DigitString(numerals: Numerals, s: string) {
    && s != "" && numerals(s[0]).Some? && numerals(s[|s| - 1]).Some?
    && (forall i :: 0 <= i < |s| ==> numerals(s[i]).Some? || s[i] == '_')
    && (forall i :: 0 <= i < |s| - 1 ==> numerals(s[i]).Some? || numerals(s[i + 1]).Some?)
  }

  /** The decimal value of the digits; underscores count for nothing. */
  function Value(numerals: Numerals, s: string): nat {
    if s == "" then 0 else
    match numerals(s[|s| - 1])
    case None => Value(numerals, s[..|s| - 1])
    case Some(d) => 10 * Value(numerals, s[..|s| - 1]) + d
  }

  lemma {:induction false} DigitsExactly(numerals: Numerals, s: string)
    requires numerals('_').None?
    ensures Digits(numerals, s).Some? <==> DigitString(numerals, s)
    ensures Digits(numerals, s).Some? ==> Digits(numerals, s).value == Value(numerals, s)
    decreases |s|
  {
    if |s| == 1 {
      assert Value(numerals, s[..0]) == 0;
    } else if |s| > 1 && numerals(s[|s| - 1]).Some? {
      var front := if s[|s| - 2] == '_' then s[..|s| - 2] else s[..|s| - 1];
      DigitsExactly(numerals, front);
      FrontIsDigits(numerals, s, front);
      if s[|s| - 2] == '_' {
        assert s[..|s| - 1][..|s| - 2] == front;
      }
    }
  }

  lemma FrontIsDigits(numerals: Numerals, s: string, front: string)
    requires numerals('_').None? && |s| > 1 && numerals(s[|s| - 1]).Some?
    requires front == if s[|s| - 2] == '_' then s[..|s| - 2] else s[..|s| - 1]
    ensures DigitString(numerals, front) <==> DigitString(numerals, s)
  {
    if DigitString(numerals, s) {
      assert front != "";
      assert numerals(front[|front| - 1]).Some?;
    }
    if DigitString(numerals, front) {
      forall i | 0 <= i < |s| - 1
        ensures numerals(s[i]).Some? || numerals(s[i + 1]).Some?
      {
        assert i < |front| - 1 ==> s[i] == front[i] && s[i + 1] == front[i + 1];
      }
    }
  }

  /** An integer is read from a text with blanks around it, a sign before it or not, and then digits with single
      underscores between them; its value is theirs. */
  lemma ParseIntExactly(numerals: Numerals, s: string)
    requires numerals('_').None?
    ensures ParseInt(numerals, s).Some? <==> DigitString(numerals, Unsigned(Strip(s)))
    ensures ParseInt(numerals, s).Some? ==>
              var n: int := Value(numerals, Unsigned(Strip(s)));
              ParseInt(numerals, s).value == if "-" <= Strip(s) then -n else n
  {
    DigitsExactly(numerals, Unsigned(Strip(s)));
  }

  // ----- Hours and minutes in ASCII -----

  predicate AsciiDigits(s: string) {
    s != "" && forall i :: 0 <= i < |s| ==> AsciiDigit(s[i])
  }

  function DecimalValue(s: string): nat
    requires forall i :: 0 <= i < |s| ==> AsciiDigit(s[i])
  {
    if s == "" then 0 else 10 * DecimalValue(s[..|s| - 1]) + DigitValue(s[|s| - 1])
  }

  /** A number as a user may write it: blanks, a plus sign or none, digits with any number of leading zeros,
      blanks. */
  datatype Written = Written(left: string, plus: bool, digits: string, right: string)

  predicate Writes(w: Written, n: nat) {
    Blank(w.left) && Blank(w.right) && AsciiDigits(w.digits) && DecimalValue(w.digits) == n
  }

  function Body(w: Written): string {
    (if w.plus then "+" else "") + w.digits
  }

  function Text(w: Written): string {
    w.left + Body(w) + w.right
  }

  lemma {:induction false} AsciiDigitsRead(numerals: Numerals, s: string)
    requires ReadsAscii(numerals) && AsciiDigits(s)
    ensures Digits(numerals, s) == Some(DecimalValue(s))
    decreases |s|
  {
    if |s| > 1 {
      AsciiDigitsRead(numerals, s[..|s| - 1]);
    }
  }

  lemma BodyTrimmed(w: Written, n: nat)
    requires Writes(w, n)
    ensures Body(w) != "" && Trimmed(Body(w))
    ensures ':' !in Body(w) + w.right && ',' !in Body(w) + w.right
    ensures ':' !in w.left + Body(w) && ',' !in w.left + Body(w)
  {
    var body := Body(w);
    assert body[|body| - 1] == w.digits[|w.digits| - 1];
    assert body[0] == if w.plus then '+' else w.digits[0];
    assert forall c :: c in body ==> c == '+' || c in w.digits;
  }

  lemma WrittenIsRead(numerals: Numerals, w: Written, n: nat, left: string, right: string)
    requires ReadsAscii(numerals) && Writes(w, n) && Blank(left) && Blank(right)
    ensures ParseInt(numerals, left + Body(w) + right) == Some(n)
  {
    assert Strip(left + Body(w) + right) == Body(w) by {
      BodyTrimmed(w, n);
      StripExactly(left, Body(w), right);
    }
    BodyIsRead(numerals, left + Body(w) + right, w, n);
  }

  lemma BodyIsRead(numerals: Numerals, s: string, w: Written, n: nat)
    requires ReadsAscii(numerals) && Writes(w, n) && Strip(s) == Body(w)
    ensures ParseInt(numerals, s) == Some(n)
  {
    var body := Strip(s);
    AsciiDigitsRead(numerals, w.digits);
    if w.plus {
      assert body[0] == '+' && body[1..] == w.digits;
    } else {
      assert body == w.digits && AsciiDigit(body[0]);
    }
  }

  function Piece(a: Written, b: Written): string {
    (Body(a) + a.right) + [':'] + (b.left + Body(b))
  }

  lemma PieceIsRead(numerals: Numerals, a: Written, b: Written, hour: nat, minute: nat)
    requires ReadsAscii(numerals) && hour < 24 && minute < 60 && Writes(a, hour) && Writes(b, minute)
    ensures ReadsAs(numerals, Piece(a, b), hour, minute)
  {
    var before, after := Body(a) + a.right, b.left + Body(b);
    var piece := before + [':'] + after;
    BodyTrimmed(a, hour);
    BodyTrimmed(b, minute);
    WrittenIsRead(numerals, a, hour, "", a.right);
    WrittenIsRead(numerals, b, minute, b.left, "");
    assert "" + Body(a) + a.right == before && b.left + Body(b) + "" == after;
    var i := |before|;
    assert piece[i] == ':' && piece[..i] == before && piece[i + 1..] == after;
  }

  lemma OnePiece(a: Written, b: Written, hour: nat, minute: nat)
    requires Writes(a, hour) && Writes(b, minute)
    ensures Pieces(Text(a) + ":" + Text(b)) == [Piece(a, b)]
  {
    var piece := Piece(a, b);
    BodyTrimmed(a, hour);
    BodyTrimmed(b, minute);
    assert Text(a) + ":" + Text(b) == a.left + piece + b.right;
    assert piece[0] == Body(a)[0] && piece[|piece| - 1] == Body(b)[|Body(b)| - 1];
    StripExactly(a.left, piece, b.right);
    StripTrimmed(piece);
    SplitWithoutSeparator(piece, ',');
    assert NonBlank([piece]) == NonBlank([]) + [piece];
  }

  /** Every hour and minute in ASCII is accepted, with or without leading zeros, blanks or plus signs, and gives
      the one time that shows them. */
  lemma AsciiTimeAccepted(numerals: Numerals, a: Written, b: Written, hour: nat, minute: nat)
    requires ReadsAscii(numerals) && hour < 24 && minute < 60 && Writes(a, hour) && Writes(b, minute)
    ensures var r := Parsed(numerals, Text(a) + ":" + Text(b));
            r.Ok? && |r.value| == 1 && Shows(r.value[0], hour, minute)
  {
    OnePiece(a, b, hour, minute);
    PieceIsRead(numerals, a, b, hour, minute);
    ParsedExactly(numerals, Text(a) + ":" + Text(b));
    assert Readable(numerals, Piece(a, b));
  }

  // ----- Accepted input is canonical -----

  lemma ParsedTimeCanonical(numerals: Numerals, piece: string)
    ensures ParseTime(numerals, piece).Some? ==> Canonical(ParseTime(numerals, piece).value)
  {
    var parts := Split(piece, ':');
    if ParseTime(numerals, piece).Some? {
      FormatIsCanonical(ParseInt(numerals, parts[0]).value, ParseInt(numerals, parts[1]).value);
    }
  }

  lemma {:induction false} PiecesCanonical(numerals: Numerals, pieces: seq<string>)
    ensures ParsePieces(numerals, pieces).Ok? ==>
              forall i :: 0 <= i < |ParsePieces(numerals, pieces).value| ==>
                            Canonical(ParsePieces(numerals, pieces).value[i])
  {
    if pieces != [] {
      PiecesCanonical(numerals, pieces[..|pieces| - 1]);
      ParsedTimeCanonical(numerals, Strip(pieces[|pieces| - 1]));
    }
  }

  lemma AcceptedIsCanonical(numerals: Numerals, value: string, i: nat)
    requires Parsed(numerals, value).Ok? && i < |Parsed(numerals, value).value|
    ensures Canonical(Parsed(numerals, value).value[i])
  {
    PiecesCanonical(numerals, Split(Strip(value), ','));
  }

  // ----- Printing and parsing -----

  lemma ReadTwoDigits(numerals: Numerals, n: nat)
    requires ReadsAscii(numerals) && n < 100
    ensures ParseInt(numerals, TwoDigits(n)) == Some(n)
    ensures forall c :: c in TwoDigits(n) ==> AsciiDigit(c)
  {
    var s := TwoDigits(n);
    StripTrimmed(s);
    assert s[..1] == [s[0]];
    assert Digits(numerals, s[..1]) == Some(n / 10);
  }

  lemma CanonicalShape(t: string)
    requires Canonical(t)
    ensures |t| == 5 && Trimmed(t) && ',' !in t
  {}

  lemma ParseCanonical(numerals: Numerals, t: string)
    requires ReadsAscii(numerals) && Canonical(t)
    ensures ParseTime(numerals, t) == Some(t)
  {
    var hour, minute := CanonicalIsFormat(t);
    ReadTwoDigits(numerals, hour);
    ReadTwoDigits(numerals, minute);
    SplitWithoutSeparator(TwoDigits(minute), ':');
    SplitAtSeparator(TwoDigits(hour), ':', TwoDigits(minute));
    assert t == TwoDigits(hour) + [':'] + TwoDigits(minute);
  }

  ghost predicate AllCanonical(times: seq<string>) {
    forall i :: 0 <= i < |times| ==> Canonical(times[i])
  }

  /** The pieces between the commas of the display form: a blank before each time but the first. */
  ghost predicate PiecesOf(pieces: seq<string>, times: seq<string>) {
    && |pieces| == |times|
    && forall i :: 0 <= i < |times| ==> pieces[i] == if i == 0 then times[i] else " " + times[i]
  }

  lemma SplitBeforeBlank(s: string)
    ensures Split(" " + s, ',') == [" " + Split(s, ',')[0]] + Split(s, ',')[1..]
  {
    assert (" " + s)[1..] == s;
  }

  lemma {:induction false} SplitShown(times: seq<string>)
    requires times != [] && AllCanonical(times)
    ensures PiecesOf(Split(Show(times), ','), times)
    decreases |times|
  {
    CanonicalShape(times[0]);
    if |times| == 1 {
      SplitWithoutSeparator(times[0], ',');
    } else {
      var rest := times[1..];
      assert Show(times) == times[0] + [','] + (" " + Show(rest));
      SplitAtSeparator(times[0], ',', " " + Show(rest));
      SplitBeforeBlank(Show(rest));
      SplitShown(rest);
      SplitShownCons(times, Split(Show(rest), ','));
    }
  }

  lemma SplitShownCons(times: seq<string>, rest: seq<string>)
    requires |times| > 1 && PiecesOf(rest, times[1..])
    ensures PiecesOf([times[0]] + ([" " + rest[0]] + rest[1..]), times)
  {}

  lemma StripPiece(t: string, piece: string)
    requires Canonical(t) && (piece == t || piece == " " + t)
    ensures Strip(piece) == t != ""
  {
    CanonicalShape(t);
    StripTrimmed(t);
    StripLeadingSpace(t);
  }

  lemma AddCanonical(numerals: Numerals, times: seq<string>, piece: string, t: string)
    requires ReadsAscii(numerals) && Canonical(t) && (piece == t || piece == " " + t)
    ensures AddPiece(numerals, times, piece) == Ok(times + [t])
  {
    StripPiece(t, piece);
    ParseCanonical(numerals, t);
  }

  lemma Fronts(pieces: seq<string>, times: seq<string>)
    requires times != [] && AllCanonical(times) && PiecesOf(pieces, times)
    ensures AllCanonical(times[..|times| - 1]) && PiecesOf(pieces[..|times| - 1], times[..|times| - 1])
  {}

  lemma {:induction false} ParsePiecesOf(numerals: Numerals, pieces: seq<string>, times: seq<string>)
    requires ReadsAscii(numerals) && AllCanonical(times) && PiecesOf(pieces, times)
    ensures ParsePieces(numerals, pieces) == Ok(times)
    decreases |times|
  {
    if times != [] {
      var n := |times| - 1;
      Fronts(pieces, times);
      ParsePiecesOf(numerals, pieces[..n], times[..n]);
      AddCanonical(numerals, times[..n], pieces[n], times[n]);
      assert times == times[..n] + [times[n]];
    }
  }

  lemma {:induction false} ShowTrimmed(times: seq<string>)
    requires times != [] && AllCanonical(times)
    ensures Show(times) != "" && Trimmed(Show(times))
    decreases |times|
  {
    CanonicalShape(times[0]);
    if |times| > 1 {
      ShowTrimmed(times[1..]);
      var s, rest := Show(times), Show(times[1..]);
      assert s == times[0] + ", " + rest;
      assert s[|s| - 1] == rest[|rest| - 1];
    }
  }

  /** Parsing the displayed form of a list of canonical times gives the list back. */
  lemma ParseShow(numerals: Numerals, times: seq<string>)
    requires ReadsAscii(numerals) && AllCanonical(times)
    ensures Parsed(numerals, Show(times)) == Ok(times)
  {
    if times != [] {
      ShowTrimmed(times);
      StripTrimmed(Show(times));
      SplitShown(times);
      ParsePiecesOf(numerals, Split(Show(times), ','), times);
    }
  }

  /** What the parser has accepted once survives every later display and re-submission. */
  lemma ResubmissionIsStable(numerals: Numerals, value: string)
    requires ReadsAscii(numerals) && Parsed(numerals, value).Ok?
    ensures Parsed(numerals, Show(Parsed(numerals, value).value)) == Parsed(numerals, value)
  {
    var times := Parsed(numerals, value).value;
    forall i | 0 <= i < |times|
      ensures Canonical(times[i])
    {
      AcceptedIsCanonical(numerals, value, i);
    }
    ParseShow(numerals, times);
  }
}
