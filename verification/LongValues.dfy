/** Header values that are not single lines: what a frame says when a value goes
    on, after a new line, like another header. */
module LongValues {
  import opened Frames

  lemma {:induction false} PrintLinesJoin(a: seq<HeaderLine>, b: seq<HeaderLine>)
    ensures PrintLines(a + b) == PrintLines(a) + PrintLines(b)
  {
    hide PrintLine;
    if a == [] {
      assert a + b == b;
    } else {
      PrintLinesJoin(a[1..], b);
      assert (a + b)[1..] == a[1..] + b;
      assert PrintLines(a + b) == PrintLine(a[0]) + (PrintLines(a[1..]) + PrintLines(b));
    }
  }

  lemma SameText(before: seq<HeaderLine>, a: seq<HeaderLine>, b: seq<HeaderLine>, after: seq<HeaderLine>)
    requires PrintLines(a) == PrintLines(b)
    ensures PrintLines(before + a + after) == PrintLines(before + b + after)
  {
    hide PrintLines;
    PrintLinesJoin(before + a, after);
    PrintLinesJoin(before, a);
    PrintLinesJoin(before + b, after);
    PrintLinesJoin(before, b);
  }

  /** A header whose value goes on, after a new line, like another header. */
  ghost predicate GoesOn(l: HeaderLine, first: HeaderLine, second: HeaderLine) {
    && l.header == first.header
    && l.value == first.value + [NEW_LINE] + HeaderText(second.header) + [COLON] + second.value
  }

  lemma PrintedAsTwo(l: HeaderLine, first: HeaderLine, second: HeaderLine)
    requires GoesOn(l, first, second)
    ensures PrintLines([l]) == PrintLines([first, second])
  {
    hide HeaderText;
    assert [l][1..] == [] && [first, second][1..] == [second] && [second][1..] == [];
    var name, more := HeaderText(l.header) + [COLON], HeaderText(second.header) + [COLON];
    assert PrintLine(l) == name + first.value + [NEW_LINE] + more + second.value + [NEW_LINE];
    assert PrintLine(first) + PrintLine(second) ==
      name + first.value + [NEW_LINE] + more + second.value + [NEW_LINE];
  }

  /** Printing it is printing the two headers. */
  lemma WalksAsTwo(lines: seq<HeaderLine>, headers: Headers, first: HeaderLine, second: HeaderLine)
    returns (two: seq<HeaderLine>)
    requires Walks(lines, headers) && second.header !in headers && first.header in headers
    requires GoesOn(HeaderLine(first.header, headers[first.header]), first, second)
    ensures PrintLines(two) == PrintLines(lines)
    ensures Walks(two, headers[first.header := first.value][second.header := second.value])
  {
    hide PrintLines, GoesOn;
    var l := HeaderLine(first.header, headers[first.header]);
    var i :| 0 <= i < |lines| && lines[i] == l;
    two := lines[..i] + [first, second] + lines[i + 1..];
    PrintedAsTwo(l, first, second);
    SameText(lines[..i], [l], [first, second], lines[i + 1..]);
    assert lines == lines[..i] + [l] + lines[i + 1..];
    WalksSplit(lines, headers, i, first, second);
  }

  lemma WalksSplit(lines: seq<HeaderLine>, headers: Headers, i: nat, first: HeaderLine, second: HeaderLine)
    requires Walks(lines, headers) && i < |lines| && lines[i].header == first.header && second.header !in headers
    ensures Walks(lines[..i] + [first, second] + lines[i + 1..],
                    headers[first.header := first.value][second.header := second.value])
  {
    WalksReplaced(lines, headers, i, first);
    var a, b := lines[..i] + [first], lines[i + 1..];
    assert lines[i := first] == a + b;
    WalksInserted(a, b, headers[first.header := first.value], second);
    assert lines[..i] + [first, second] + lines[i + 1..] == a + [second] + b;
  }

  lemma WalksReplaced(lines: seq<HeaderLine>, headers: Headers, i: nat, l: HeaderLine)
    requires Walks(lines, headers) && i < |lines| && lines[i].header == l.header
    ensures Walks(lines[i := l], headers[l.header := l.value])
  {
    var lines', headers' := lines[i := l], headers[l.header := l.value];
    assert lines[i] in lines;
    forall k | 0 <= k < |lines'| ensures lines'[k].header in headers' && headers'[lines'[k].header] == lines'[k].value {
      assert lines[k] in lines;
    }
    forall h | h in headers' ensures HeaderLine(h, headers'[h]) in lines' {
      var k :| 0 <= k < |lines| && lines[k] == HeaderLine(h, headers[h]);
      assert lines'[k] in lines';
    }
  }

  lemma WalksInserted(a: seq<HeaderLine>, b: seq<HeaderLine>, headers: Headers, l: HeaderLine)
    requires Walks(a + b, headers) && l.header !in headers
    ensures Walks(a + [l] + b, headers[l.header := l.value])
  {
    var lines := a + [l] + b;
    assert forall x :: x in lines ==> x == l || x in a + b;
    assert forall x :: x in a + b ==> x in lines;
    assert l in lines;
    InsertedDistinct(a, b, l);
  }

  lemma InsertedDistinct(a: seq<HeaderLine>, b: seq<HeaderLine>, l: HeaderLine)
    requires forall i, j :: 0 <= i < j < |a + b| ==> (a + b)[i].header != (a + b)[j].header
    requires forall x :: x in a + b ==> x.header != l.header
    ensures forall i, j :: 0 <= i < j < |a + [l] + b| ==> (a + [l] + b)[i].header != (a + [l] + b)[j].header
  {
    var before, after := a + b, a + [l] + b;
    forall i, j | 0 <= i < j < |after| ensures after[i].header != after[j].header {
      var i', j' := if i < |a| then i else i - 1, if j < |a| then j else j - 1;
      assert i != |a| ==> after[i] == before[i'] && before[i'] in before;
      assert j != |a| ==> after[j] == before[j'] && before[j'] in before;
    }
  }
}
