/** The text the bot replies with when it lists rows (`/all`, the filtered
    views, and the listings shown before `/delete`, `/replace_name` and the
    "send to one" branches): one entry per row,
    `Number: <id>\nID: <user_id>,  user: <user>,  name: <name>`, the entries
    joined by newlines; an empty result gets a "no records" reply instead. */
module Listing {
  import opened Text
  import opened ContactStore

  /** One entry of the list comprehension. */
  function Entry(row: Row): string {
    "Number: " + DecimalString(row.id) + "\nID: " + DecimalString(row.userId)
      + ",  user: " + row.user + ",  name: " + Shown(row.name)
  }

  /** `'\n'.join(parts)`. */
  function JoinLines(parts: seq<string>): string {
    if parts == [] then ""
    else if |parts| == 1 then parts[0]
    else parts[0] + "\n" + JoinLines(parts[1..])
  }

  function Entries(rows: seq<Row>): (r: seq<string>)
    ensures |r| == |rows|
    ensures forall i :: 0 <= i < |rows| ==> r[i] == Entry(rows[i])
  {
    if rows == [] then [] else [Entry(rows[0])] + Entries(rows[1..])
  }

  /** The reply for a select result: the joined entries, or `None` when the
      result is empty and the "no records" text is sent instead. */
  function Render(rows: seq<Row>): (r: Option<string>)
    ensures r.None? <==> rows == []
  {
    if rows == [] then None else Some(JoinLines(Entries(rows)))
  }

  lemma {:induction false} JoinLinesAppend(a: seq<string>, b: seq<string>)
    requires a != [] && b != []
    ensures JoinLines(a + b) == JoinLines(a) + "\n" + JoinLines(b)
  {
    if |a| == 1 {
      assert (a + b)[1..] == b;
    } else {
      assert (a + b)[1..] == a[1..] + b;
      JoinLinesAppend(a[1..], b);
    }
  }

  lemma {:induction false} EntriesAppend(a: seq<Row>, b: seq<Row>)
    ensures Entries(a + b) == Entries(a) + Entries(b)
  {
    assert |Entries(a + b)| == |Entries(a) + Entries(b)|;
    forall i | 0 <= i < |a + b| ensures Entries(a + b)[i] == (Entries(a) + Entries(b))[i] {
      if i >= |a| {
        assert (a + b)[i] == b[i - |a|];
      }
    }
  }

  /** Listing two runs of rows one after the other is listing each and
      joining the two texts with a newline: the listing keeps the table's
      order and loses no row. */
  lemma ListingAppend(a: seq<Row>, b: seq<Row>)
    requires a != [] && b != []
    ensures Render(a + b) == Some(Render(a).value + "\n" + Render(b).value)
  {
    EntriesAppend(a, b);
    JoinLinesAppend(Entries(a), Entries(b));
  }

  function Occurrences(s: string, c: char): (n: nat)
    ensures n <= |s|
  {
    if s == [] then 0 else (if s[0] == c then 1 else 0) + Occurrences(s[1..], c)
  }

  lemma {:induction false} OccurrencesAppend(a: string, b: string, c: char)
    ensures Occurrences(a + b, c) == Occurrences(a, c) + Occurrences(b, c)
  {
    if a == [] {
      assert a + b == b;
    } else {
      assert (a + b)[1..] == a[1..] + b;
      OccurrencesAppend(a[1..], b, c);
    }
  }

  lemma {:induction false} OccurrencesNone(s: string, c: char)
    requires forall i :: 0 <= i < |s| ==> s[i] != c
    ensures Occurrences(s, c) == 0
  {
    if s != [] {
      OccurrencesNone(s[1..], c);
    }
  }

  predicate SingleLine(s: string) {
    forall i :: 0 <= i < |s| ==> s[i] != '\n'
  }

  lemma DigitsSingleLine(n: nat)
    ensures SingleLine(DecimalString(n))
  {
    var d := DecimalString(n);
    forall i | 0 <= i < |d| ensures d[i] != '\n' {
      assert IsDigit(d[i]);
    }
  }

  /** Appending a text that holds no newline adds no line. */
  lemma AppendSingleLine(a: string, b: string)
    requires SingleLine(b)
    ensures Occurrences(a + b, '\n') == Occurrences(a, '\n')
  {
    OccurrencesAppend(a, b, '\n');
    OccurrencesNone(b, '\n');
  }

  /** The part of an entry after its first line holds one newline, its first
      character, when the handle and the name hold none. */
  lemma EntryRestLines(row: Row)
    requires SingleLine(row.user) && SingleLine(Shown(row.name))
    ensures Occurrences(EntryRest(row), '\n') == 1
  {
    var u := DecimalString(row.userId);
    assert "\nID: " == "\n" + "ID: ";
    assert SingleLine("ID: ") && SingleLine(",  user: ") && SingleLine(",  name: ");
    AppendSingleLine("\n", "ID: ");
    DigitsSingleLine(row.userId);
    AppendSingleLine("\nID: ", u);
    AppendSingleLine("\nID: " + u, ",  user: ");
    AppendSingleLine("\nID: " + u + ",  user: ", row.user);
    AppendSingleLine("\nID: " + u + ",  user: " + row.user, ",  name: ");
    AppendSingleLine("\nID: " + u + ",  user: " + row.user + ",  name: ", Shown(row.name));
  }

  /** Each entry spans exactly two lines when the handle and the name do. */
  lemma EntryLines(row: Row)
    requires SingleLine(row.user) && SingleLine(Shown(row.name))
    ensures Occurrences(Entry(row), '\n') == 1
  {
    var number := "Number: " + DecimalString(row.id);
    EntrySplit(row);
    assert SingleLine("Number: ");
    DigitsSingleLine(row.id);
    OccurrencesAppend("Number: ", DecimalString(row.id), '\n');
    OccurrencesNone("Number: ", '\n');
    OccurrencesNone(DecimalString(row.id), '\n');
    OccurrencesAppend(number, EntryRest(row), '\n');
    EntryRestLines(row);
  }

  /** A listing of n rows whose handles and names hold no newline has
      exactly 2n lines. */
  lemma {:induction false} ListingLines(rows: seq<Row>)
    requires rows != []
    requires forall i :: 0 <= i < |rows| ==> SingleLine(rows[i].user) && SingleLine(Shown(rows[i].name))
    ensures Occurrences(Render(rows).value, '\n') == 2 * |rows| - 1
  {
    EntryLines(rows[0]);
    if |rows| > 1 {
      ListingLines(rows[1..]);
      assert rows == [rows[0]] + rows[1..];
      ListingAppend([rows[0]], rows[1..]);
      OccurrencesAppend(Entry(rows[0]) + "\n", Render(rows[1..]).value, '\n');
      OccurrencesAppend(Entry(rows[0]), "\n", '\n');
    }
  }

  predicate IsNewline(c: char) {
    c == '\n'
  }

  lemma {:induction false} TakeUntilAppend(a: string, b: string, stop: char -> bool)
    requires forall i :: 0 <= i < |a| ==> !stop(a[i])
    requires b != [] && stop(b[0])
    ensures TakeUntil(a + b, stop) == a
  {
    if a == [] {
      assert a + b == b;
    } else {
      assert (a + b)[1..] == a[1..] + b;
      TakeUntilAppend(a[1..], b, stop);
    }
  }

  /** What follows the first entry in a listing: nothing for one row,
      otherwise a newline and the listing of the remaining rows. */
  function ListingTail(rows: seq<Row>): string
    requires rows != []
  {
    if |rows| == 1 then "" else "\n" + JoinLines(Entries(rows[1..]))
  }

  lemma JoinLinesHead(parts: seq<string>)
    requires parts != []
    ensures JoinLines(parts) == parts[0] + (if |parts| == 1 then "" else "\n" + JoinLines(parts[1..]))
  {
    if |parts| == 1 {
      assert parts[0] + "" == parts[0];
    } else {
      AppendAssociative(parts[0], "\n", JoinLines(parts[1..]));
    }
  }

  lemma ListingHead(rows: seq<Row>)
    requires rows != []
    ensures Render(rows).value == Entry(rows[0]) + ListingTail(rows)
  {
    var parts := Entries(rows);
    JoinLinesHead(parts);
    if |rows| > 1 {
      assert parts[1..] == Entries(rows[1..]);
    }
  }

  /** The rest of an entry after its `Number: <id>` line. */
  function EntryRest(row: Row): string {
    "\nID: " + DecimalString(row.userId) + ",  user: " + row.user + ",  name: " + Shown(row.name)
  }

  lemma EntrySplit(row: Row)
    ensures Entry(row) == "Number: " + DecimalString(row.id) + EntryRest(row)
  {
  }

  lemma NumberLine(id: nat)
    ensures forall i :: 0 <= i < |"Number: " + DecimalString(id)| ==>
      !IsNewline(("Number: " + DecimalString(id))[i])
  {
    var d := DecimalString(id);
    forall i | 0 <= i < |"Number: " + d| ensures !IsNewline(("Number: " + d)[i]) {
      if i >= 8 {
        assert ("Number: " + d)[i] == d[i - 8];
      }
    }
  }

  /** The first line of a listing is `Number: <id>` of the first row, and
      reading the number back gives that row's id: the Number the admin
      copies from a listing is the id `/delete` and `/replace_name` take. */
  lemma ListedNumberIsId(rows: seq<Row>)
    requires rows != []
    ensures var line := TakeUntil(Render(rows).value, IsNewline);
      && line == "Number: " + DecimalString(rows[0].id)
      && IsDigits(line[8..])
      && DecimalValue(line[8..]) == rows[0].id
  {
    var number := "Number: " + DecimalString(rows[0].id);
    var rest := EntryRest(rows[0]) + ListingTail(rows);
    ListingHead(rows);
    EntrySplit(rows[0]);
    calc {
      Render(rows).value;
      number + EntryRest(rows[0]) + ListingTail(rows);
      { AppendAssociative(number, EntryRest(rows[0]), ListingTail(rows)); }
      number + rest;
    }
    NumberLine(rows[0].id);
    TakeUntilAppend(number, rest, IsNewline);
    assert number[8..] == DecimalString(rows[0].id);
    DecimalRoundTrip(rows[0].id);
  }
}
