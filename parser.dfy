/** The reader of clay-vein descriptions: newline-separated lines of the form
    `x=N, y=A..B` (a vertical vein at column N from row A to row B) or
    `y=N, x=A..B` (a horizontal vein at row N from column A to column B),
    grouped by axis. The combinators of the parsing library are modelled by
    what they do to the input string. */
module Parser {

  /** A clay vein: `line` is the fixed coordinate, [from, to] the inclusive
      range on the other axis. */
  datatype Row = Row(line: nat, from: nat, to: nat)

  /** Veins grouped by axis: `x` holds the `x=...` lines, `y` the `y=...`
      lines. */
  datatype Rows = Rows(x: seq<Row>, y: seq<Row>)

  /** A vein together with the axis letter of the line it came from. */
  type Tagged = (char, Row)

  /** The outcome of a parser: the unconsumed input and the value, or a
      recoverable failure. */
  datatype Result<T> = Ok(rest: string, value: T) | Err
  {
    predicate IsFailure() { Err? }

    function PropagateFailure<U>(): Result<U>
      requires Err?
    {
      Err
    }

    function Extract(): (string, T)
      requires Ok?
    {
      (rest, value)
    }
  }

  predicate IsDigit(c: char) { '0' <= c <= '9' }

  predicate AllDigits(s: string) { forall i :: 0 <= i < |s| ==> IsDigit(s[i]) }

  predicate StartsWithDigit(s: string) { s != [] && IsDigit(s[0]) }

  /** `tag(t)`: succeeds exactly when t is a prefix of the input, consuming it. */
  function Tag(t: string, input: string): (r: Result<string>)
    ensures r.Ok? <==> t <= input
    ensures r.Ok? ==> input == t + r.rest && r.value == t
  {
    if t <= input then Ok(input[|t|..], t) else Err
  }

  /** Length of the longest prefix of s made of digits. */
  function DigitPrefix(s: string): (n: nat)
    ensures n <= |s| && AllDigits(s[..n])
    ensures !StartsWithDigit(s[n..])
  {
    if StartsWithDigit(s) then
      var n := 1 + DigitPrefix(s[1..]);
      assert s[..n] == [s[0]] + s[1..][..n - 1];
      assert s[n..] == s[1..][n - 1..];
      n
    else 0
  }

  /** `digit1`: the maximal non-empty run of digits at the front of the input. */
  function Digit1(input: string): (r: Result<string>)
    ensures r.Ok? <==> StartsWithDigit(input)
    ensures r.Ok? ==> input == r.value + r.rest && r.value != [] && AllDigits(r.value) && !StartsWithDigit(r.rest)
  {
    var n := DigitPrefix(input);
    if n == 0 then Err
    else
      assert input == input[..n] + input[n..];
      Ok(input[n..], input[..n])
  }

  /** The decimal value of a string of digits, most significant first. */
  function DecimalValue(s: string): nat
    requires AllDigits(s)
  {
    if s == [] then 0
    else DecimalValue(s[..|s| - 1]) * 10 + (s[|s| - 1] as int - '0' as int)
  }

  /** `parse_number`: consumes the maximal non-empty run of digits and yields
      its decimal value; fails unless the input starts with a digit. */
  function ParseNumber(input: string): (r: Result<nat>)
    ensures r.Ok? <==> StartsWithDigit(input)
    ensures r.Ok? ==> exists digits :: input == digits + r.rest && digits != [] && AllDigits(digits) &&
                        !StartsWithDigit(r.rest) && r.value == DecimalValue(digits)
  {
    var (rest, digits) :- Digit1(input);
    Ok(rest, DecimalValue(digits))
  }

  /** `parse_x`: `x=N, y=A..B` gives ('x', Row(N, A, B)). */
  function ParseX(input: string): (r: Result<Tagged>)
    ensures r.Ok? ==> "x=" <= input && |r.rest| < |input| && r.value.0 == 'x'
  {
    var (input, _) :- Tag("x=", input);
    var (input, line) :- ParseNumber(input);
    var (input, _) :- Tag(", y=", input);
    var (input, from) :- ParseNumber(input);
    var (input, _) :- Tag("..", input);
    var (input, to) :- ParseNumber(input);
    Ok(input, ('x', Row(line, from, to)))
  }

  /** `parse_y`: `y=N, x=A..B` gives ('y', Row(N, A, B)). */
  function ParseY(input: string): (r: Result<Tagged>)
    ensures r.Ok? ==> "y=" <= input && |r.rest| < |input| && r.value.0 == 'y'
  {
    var (input, _) :- Tag("y=", input);
    var (input, line) :- ParseNumber(input);
    var (input, _) :- Tag(", x=", input);
    var (input, from) :- ParseNumber(input);
    var (input, _) :- Tag("..", input);
    var (input, to) :- ParseNumber(input);
    Ok(input, ('y', Row(line, from, to)))
  }

  /** The text after a line's first tag: a number, the separator `sep`, a
      number, `..` and a number; anything else fails. */
  lemma FieldsShape(sep: string, s: string) returns (n: string, a: string, b: string, rest: string)
    requires ParseNumber(s).Ok? && Tag(sep, ParseNumber(s).rest).Ok?
    requires ParseNumber(Tag(sep, ParseNumber(s).rest).rest).Ok?
    requires Tag("..", ParseNumber(Tag(sep, ParseNumber(s).rest).rest).rest).Ok?
    requires ParseNumber(Tag("..", ParseNumber(Tag(sep, ParseNumber(s).rest).rest).rest).rest).Ok?
    ensures n != [] && a != [] && b != [] && AllDigits(n) && AllDigits(a) && AllDigits(b)
    ensures s == n + (sep + (a + (".." + (b + rest)))) && !StartsWithDigit(rest)
    ensures var s2 := Tag(sep, ParseNumber(s).rest).rest;
      var s4 := Tag("..", ParseNumber(s2).rest).rest;
      ParseNumber(s).value == DecimalValue(n) && ParseNumber(s2).value == DecimalValue(a) &&
      ParseNumber(s4) == Ok(rest, DecimalValue(b))
  {
    var d1 := Digit1(s);
    var s2 := Tag(sep, d1.rest).rest;
    var d2 := Digit1(s2);
    var s4 := Tag("..", d2.rest).rest;
    var d3 := Digit1(s4);
    n, a, b, rest := d1.value, d2.value, d3.value, d3.rest;
  }

  /** `parse_x` succeeds only on `x=N, y=A..B` followed by input that does
      not continue B: a missing tag or number makes it fail. */
  lemma ParseXShape(input: string) returns (n: string, a: string, b: string)
    requires ParseX(input).Ok?
    ensures n != [] && a != [] && b != [] && AllDigits(n) && AllDigits(a) && AllDigits(b)
    ensures var r := ParseX(input);
      input == "x=" + (n + (", y=" + (a + (".." + (b + r.rest))))) && !StartsWithDigit(r.rest) &&
      r.value == ('x', Row(DecimalValue(n), DecimalValue(a), DecimalValue(b)))
  {
    var s := Tag("x=", input).rest;
    var rest;
    n, a, b, rest := FieldsShape(", y=", s);
  }

  /** `parse_y` succeeds only on `y=N, x=A..B` followed by input that does
      not continue B. */
  lemma ParseYShape(input: string) returns (n: string, a: string, b: string)
    requires ParseY(input).Ok?
    ensures n != [] && a != [] && b != [] && AllDigits(n) && AllDigits(a) && AllDigits(b)
    ensures var r := ParseY(input);
      input == "y=" + (n + (", x=" + (a + (".." + (b + r.rest))))) && !StartsWithDigit(r.rest) &&
      r.value == ('y', Row(DecimalValue(n), DecimalValue(a), DecimalValue(b)))
  {
    var s := Tag("y=", input).rest;
    var rest;
    n, a, b, rest := FieldsShape(", x=", s);
  }

  /** `alt((parse_x, parse_y))`: the x form is tried first. */
  function ParseRow(input: string): (r: Result<Tagged>)
    ensures r.Ok? ==> |r.rest| < |input| && (r.value.0 == 'x' || r.value.0 == 'y')
  {
    match ParseX(input)
    case Ok(rest, row) => Ok(rest, row)
    case Err => ParseY(input)
  }

  predicate ValidAxes(raw: seq<Tagged>) {
    forall t :: t in raw ==> t.0 == 'x' || t.0 == 'y'
  }

  /** `separated_list1(char('\n'), alt((parse_x, parse_y)))`: one row, then
      as many further rows as each follow a single newline. A newline not
      followed by a row is left unconsumed. */
  function RowList(input: string): (r: Result<seq<Tagged>>)
    ensures r.Ok? <==> ParseRow(input).Ok?
    ensures r.Ok? ==> |r.value| > 0 && |r.rest| < |input| && ValidAxes(r.value)
    decreases |input|
  {
    var (rest, first) :- ParseRow(input);
    if rest != [] && rest[0] == '\n' then
      match RowList(rest[1..])
      case Err => Ok(rest, [first])
      case Ok(rest', more) => Ok(rest', [first] + more)
    else Ok(rest, [first])
  }

  /** The grouping done by `parse`'s loop: x-tagged rows to `x`, y-tagged
      rows to `y`, each in input order. */
  function Partition(raw: seq<Tagged>): (rows: Rows)
    requires ValidAxes(raw)
    ensures |rows.x| + |rows.y| == |raw|
  {
    if raw == [] then Rows([], [])
    else
      var n := |raw| - 1;
      assert raw[..n] <= raw;
      var rows := Partition(raw[..n]);
      if raw[n].0 == 'x' then rows.(x := rows.x + [raw[n].1])
      else rows.(y := rows.y + [raw[n].1])
  }

  /** Grouping is a permutation: tagging the groups again gives the same
      multiset of tagged rows, so no row is lost, invented or duplicated. */
  lemma {:induction false} PartitionPermutes(raw: seq<Tagged>)
    requires ValidAxes(raw)
    ensures multiset(Tagging(Partition(raw))) == multiset(raw)
  {
    if raw != [] {
      var n := |raw| - 1;
      PartitionStep(raw, n);
      assert raw[..n + 1] == raw;
      assert raw == raw[..n] + [raw[n]];
      PartitionPermutes(raw[..n]);
      assert raw[n] in raw;
      TaggingPush(Partition(raw[..n]), raw[n].0, raw[n].1);
    }
  }

  /** Grouping one more row of `raw` appends it to the group of its axis. */
  lemma PartitionStep(raw: seq<Tagged>, i: nat)
    requires ValidAxes(raw) && i < |raw|
    ensures ValidAxes(raw[..i]) && ValidAxes(raw[..i + 1])
    ensures var rows := Partition(raw[..i]);
      Partition(raw[..i + 1]) ==
        if raw[i].0 == 'x' then rows.(x := rows.x + [raw[i].1]) else rows.(y := rows.y + [raw[i].1])
  {
    assert raw[..i + 1][..i] == raw[..i];
    assert raw[..i + 1][i] == raw[i];
  }

  /** Appending a row to one group adds exactly that tagged row to the
      tagging. */
  lemma TaggingPush(rows: Rows, axis: char, r: Row)
    requires axis == 'x' || axis == 'y'
    ensures var rows' := if axis == 'x' then rows.(x := rows.x + [r]) else rows.(y := rows.y + [r]);
      multiset(Tagging(rows')) == multiset(Tagging(rows)) + multiset{(axis, r)}
  {
    var xs := seq(|rows.x|, i requires 0 <= i < |rows.x| => ('x', rows.x[i]));
    var ys := seq(|rows.y|, i requires 0 <= i < |rows.y| => ('y', rows.y[i]));
    assert Tagging(rows) == xs + ys;
    if axis == 'x' {
      var rows' := rows.(x := rows.x + [r]);
      assert Tagging(rows') == xs + [('x', r)] + ys;
    } else {
      var rows' := rows.(y := rows.y + [r]);
      assert Tagging(rows') == xs + (ys + [('y', r)]);
    }
  }

  /** Every row lands in the group of its axis, and nothing else does. */
  lemma {:induction false} PartitionMembers(raw: seq<Tagged>)
    requires ValidAxes(raw)
    ensures forall t :: t in raw ==> (t.0 == 'x' ==> t.1 in Partition(raw).x) && (t.0 == 'y' ==> t.1 in Partition(raw).y)
    ensures forall row :: row in Partition(raw).x ==> ('x', row) in raw
    ensures forall row :: row in Partition(raw).y ==> ('y', row) in raw
  {
    if raw != [] {
      var n := |raw| - 1;
      assert raw == raw[..n] + [raw[n]];
      PartitionMembers(raw[..n]);
    }
  }

  /** `parse`: at least one row, then the rows grouped by axis; whatever the
      rows do not consume is returned as the leftover. The "Unknown axis"
      branch cannot be reached. */
  method Parse(input: string) returns (r: Result<Rows>)
    ensures r.Ok? <==> RowList(input).Ok?
    ensures r.Ok? ==> r.rest == RowList(input).rest && r.value == Partition(RowList(input).value)
  {
    var raw;
    match RowList(input) {
      case Err => return Err;
      case Ok(rest, rs) =>
        r := Ok(rest, Rows([], []));
        raw := rs;
    }
    var rows := Rows([], []);
    for i := 0 to |raw|
      invariant ValidAxes(raw[..i])
      invariant rows == Partition(raw[..i])
    {
      PartitionStep(raw, i);
      var (axis, row) := raw[i];
      match axis {
        case 'x' => rows := rows.(x := rows.x + [row]);
        case 'y' => rows := rows.(y := rows.y + [row]);
        case _ => assert false;
      }
    }
    assert raw[..|raw|] == raw;
    r := r.(value := rows);
  }

  // ---- The printed form, and the round trip through the parser ----

  /** The decimal digits of n, without leading zeros. */
  function NatToString(n: nat): (s: string)
    ensures s != [] && AllDigits(s) && DecimalValue(s) == n
    decreases n
  {
    var d := ['0' + (n % 10) as char];
    if n < 10 then d
    else
      var s := NatToString(n / 10) + d;
      assert s[..|s| - 1] == NatToString(n / 10);
      s
  }

  /** The line a tagged vein is written as. */
  function PrintRow(t: Tagged): string
    requires t.0 == 'x' || t.0 == 'y'
  {
    var other := if t.0 == 'x' then 'y' else 'x';
    [t.0] + "=" + NatToString(t.1.line) + ", " + [other] + "=" + NatToString(t.1.from) + ".." + NatToString(t.1.to)
  }

  /** Tagged veins written one per line, joined by newlines. */
  function PrintRows(raw: seq<Tagged>): string
    requires |raw| > 0 && ValidAxes(raw)
  {
    if |raw| == 1 then PrintRow(raw[0])
    else PrintRow(raw[0]) + ("\n" + PrintRows(raw[1..]))
  }

  /** A number followed by anything but a digit reads back as itself. */
  lemma ParseNumberPrinted(n: nat, rest: string)
    requires !StartsWithDigit(rest)
    ensures ParseNumber(NatToString(n) + rest) == Ok(rest, n)
  {
    var s := NatToString(n);
    var input := s + rest;
    var k := DigitPrefix(input);
    assert input[..|s|] == s && input[|s|..] == rest;
  }

  lemma TagConsumes(t: string, rest: string)
    ensures Tag(t, t + rest) == Ok(rest, t)
  {
    assert (t + rest)[..|t|] == t && (t + rest)[|t|..] == rest;
  }

  /** The text of a vein after its `x=` or `y=` tag, followed by `rest`. */
  function FieldsText(sep: string, row: Row, rest: string): string {
    NatToString(row.line) + (sep + (NatToString(row.from) + (".." + (NatToString(row.to) + rest))))
  }

  /** The fields of a printed vein, after its first tag, read back in turn. */
  lemma FieldsPrinted(sep: string, row: Row, rest: string)
    requires !StartsWithDigit(rest) && sep != [] && !IsDigit(sep[0])
    ensures var s4 := NatToString(row.to) + rest;
      var s3 := ".." + s4;
      var s2 := NatToString(row.from) + s3;
      var s1 := sep + s2;
      ParseNumber(FieldsText(sep, row, rest)) == Ok(s1, row.line) && Tag(sep, s1) == Ok(s2, sep) &&
      ParseNumber(s2) == Ok(s3, row.from) && Tag("..", s3) == Ok(s4, "..") &&
      ParseNumber(s4) == Ok(rest, row.to)
  {
    var s4 := NatToString(row.to) + rest;
    var s3 := ".." + s4;
    var s2 := NatToString(row.from) + s3;
    var s1 := sep + s2;
    ParseNumberPrinted(row.line, s1);
    TagConsumes(sep, s2);
    ParseNumberPrinted(row.from, s3);
    TagConsumes("..", s4);
    ParseNumberPrinted(row.to, rest);
  }

  /** A printed x vein followed by anything but a digit reads back as itself. */
  lemma ParseXPrinted(row: Row, rest: string)
    requires !StartsWithDigit(rest)
    ensures ParseX(PrintRow(('x', row)) + rest) == Ok(rest, ('x', row))
  {
    var s0 := FieldsText(", y=", row, rest);
    assert PrintRow(('x', row)) + rest == "x=" + s0;
    TagConsumes("x=", s0);
    FieldsPrinted(", y=", row, rest);
  }

  /** A printed y vein followed by anything but a digit reads back as itself,
      and the x form rejects it. */
  lemma ParseYPrinted(row: Row, rest: string)
    requires !StartsWithDigit(rest)
    ensures ParseX(PrintRow(('y', row)) + rest) == Err
    ensures ParseY(PrintRow(('y', row)) + rest) == Ok(rest, ('y', row))
  {
    var s0 := FieldsText(", x=", row, rest);
    assert PrintRow(('y', row)) + rest == "y=" + s0;
    TagConsumes("y=", s0);
    FieldsPrinted(", x=", row, rest);
  }

  /** A printed vein followed by anything but a digit reads back as itself. */
  lemma ParseRowPrinted(t: Tagged, rest: string)
    requires t.0 == 'x' || t.0 == 'y'
    requires !StartsWithDigit(rest)
    ensures ParseRow(PrintRow(t) + rest) == Ok(rest, t)
  {
    if t.0 == 'x' {
      ParseXPrinted(t.1, rest);
    } else {
      ParseYPrinted(t.1, rest);
    }
  }

  /** Input after the rows that the list parser stops at: it neither
      continues the last number nor is a newline followed by a tag. */
  predicate Stops(rest: string) {
    !StartsWithDigit(rest) && (rest != [] && rest[0] == '\n' ==> !("x=" <= rest[1..]) && !("y=" <= rest[1..]))
  }

  /** The list parser after one row whose leftover is not a newline
      followed by an `x=` or `y=` tag: that row alone, with the leftover
      untouched. */
  lemma RowListOne(input: string, t: Tagged, rest: string)
    requires ParseRow(input) == Ok(rest, t) && Stops(rest)
    ensures RowList(input) == Ok(rest, [t])
  {
    if rest != [] && rest[0] == '\n' {
      assert ParseX(rest[1..]).Err? && ParseY(rest[1..]).Err?;
    }
  }

  /** The list parser after one row, a newline and further rows. */
  lemma RowListMore(input: string, t: Tagged, more: string, rest: string, ts: seq<Tagged>)
    requires ParseRow(input) == Ok("\n" + more, t) && RowList(more) == Ok(rest, ts)
    ensures RowList(input) == Ok(rest, [t] + ts)
  {
    assert ("\n" + more)[1..] == more;
  }

  /** Printed rows, split after the first row and its newline. */
  lemma PrintRowsSplit(raw: seq<Tagged>, rest: string)
    requires |raw| > 1 && ValidAxes(raw)
    ensures raw[0].0 == 'x' || raw[0].0 == 'y'
    ensures ValidAxes(raw[1..])
    ensures PrintRows(raw) + rest == PrintRow(raw[0]) + ("\n" + (PrintRows(raw[1..]) + rest))
  {
    assert raw[0] in raw;
    forall t | t in raw[1..] ensures t.0 == 'x' || t.0 == 'y' {
      assert t in raw;
    }
  }

  /** Printed rows followed by a stopping leftover read back as the same
      rows, leaving exactly that leftover. */
  lemma {:induction false} RowListPrinted(raw: seq<Tagged>, rest: string)
    requires |raw| > 0 && ValidAxes(raw) && Stops(rest)
    ensures RowList(PrintRows(raw) + rest) == Ok(rest, raw)
    decreases |raw|
  {
    var input := PrintRows(raw) + rest;
    if |raw| == 1 {
      assert raw[0] in raw;
      ParseRowPrinted(raw[0], rest);
      RowListOne(input, raw[0], rest);
      assert [raw[0]] == raw;
    } else {
      assert [raw[0]] + raw[1..] == raw;
      var more := PrintRows(raw[1..]) + rest;
      PrintRowsSplit(raw, rest);
      ParseRowPrinted(raw[0], "\n" + more);
      RowListPrinted(raw[1..], rest);
      RowListMore(input, raw[0], more, rest, raw[1..]);
    }
  }

  /** A trailing newline is not consumed: it comes back as the leftover. */
  lemma TrailingNewlineIsLeftover(raw: seq<Tagged>)
    requires |raw| > 0 && ValidAxes(raw)
    ensures RowList(PrintRows(raw) + "\n") == Ok("\n", raw)
  {
    RowListPrinted(raw, "\n");
  }

  /** The veins of `rows` tagged with their axis, x veins first. */
  function Tagging(rows: Rows): (raw: seq<Tagged>)
    ensures |raw| == |rows.x| + |rows.y| && ValidAxes(raw)
  {
    seq(|rows.x|, i requires 0 <= i < |rows.x| => ('x', rows.x[i])) +
    seq(|rows.y|, i requires 0 <= i < |rows.y| => ('y', rows.y[i]))
  }

  /** Grouping the tagged veins of `rows` gives back `rows`, order included. */
  lemma {:induction false} PartitionTagging(rows: Rows)
    ensures Partition(Tagging(rows)) == rows
    decreases |rows.x| + |rows.y|
  {
    var raw := Tagging(rows);
    if |rows.y| > 0 {
      var shorter := rows.(y := rows.y[..|rows.y| - 1]);
      assert raw[..|raw| - 1] == Tagging(shorter);
      PartitionTagging(shorter);
      assert rows.y == shorter.y + [rows.y[|rows.y| - 1]];
    } else if |rows.x| > 0 {
      var shorter := rows.(x := rows.x[..|rows.x| - 1]);
      assert raw[..|raw| - 1] == Tagging(shorter);
      PartitionTagging(shorter);
      assert rows.x == shorter.x + [rows.x[|rows.x| - 1]];
    }
  }



  /** Round trip: printing a non-empty set of veins one per line and parsing
      the text gives back the same veins, grouped by axis in the same order,
      with nothing left over. */
  lemma RoundTrip(rows: Rows)
    requires |rows.x| + |rows.y| > 0
    ensures var printed := PrintRows(Tagging(rows));
      RowList(printed).Ok? && RowList(printed).rest == [] &&
      Partition(RowList(printed).value) == rows
  {
    var raw := Tagging(rows);
    RowListPrinted(raw, []);
    assert PrintRows(raw) + [] == PrintRows(raw);
    PartitionTagging(rows);
  }
}
