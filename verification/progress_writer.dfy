/** The collector of a command's output: it keeps the first `remaining` bytes and hands the lines in
    them to a callback while they arrive. Characters stand for bytes. */
module ProgressWriting {
  import opened Strings

  // ----- what a line is -------------------------------------------------------------

  predicate IsBreak(c: char) {
    c == '\r' || c == '\n'
  }

  predicate NoBreak(s: string) {
    forall i :: 0 <= i < |s| ==> !IsBreak(s[i])
  }

  /** Replaces CRLF, CR and LF by LF, leftmost match first. */
  function Normalize(s: string): string {
    if s == [] then []
    else if s[0] == '\r' then ['\n'] + Normalize(if |s| > 1 && s[1] == '\n' then s[2..] else s[1..])
    else [s[0]] + Normalize(s[1..])
  }

  function NonEmpty(parts: seq<string>): seq<string> {
    if parts == [] then []
    else (if parts[0] == "" then [] else [parts[0]]) + NonEmpty(parts[1..])
  }

  /** The non-empty lines of a text that ends lines with CRLF, CR or LF. */
  function Lines(s: string): seq<string> {
    NonEmpty(Split(Normalize(s), '\n'))
  }

  // ----- reading a text character by character --------------------------------------------

  function Closed(line: string): seq<string> {
    if line == "" then [] else [line]
  }

  /** The lines completed by reading `s` when `line` has been read of the current one. */
  function Completed(line: string, s: string): seq<string>
    decreases |s|
  {
    if s == [] then []
    else if IsBreak(s[0]) then Closed(line) + Completed("", s[1..])
    else Completed(line + [s[0]], s[1..])
  }

  /** What has been read of the current line after `s`. */
  function Rest(line: string, s: string): string
    decreases |s|
  {
    if s == [] then line
    else Rest(if IsBreak(s[0]) then "" else line + [s[0]], s[1..])
  }

  lemma {:induction false} RestHasNoBreak(line: string, s: string)
    requires NoBreak(line)
    ensures NoBreak(Rest(line, s))
    decreases |s|
  {
    if s != [] {
      RestHasNoBreak(if IsBreak(s[0]) then "" else line + [s[0]], s[1..]);
    }
  }

  /** Reading in two pieces is reading at once, wherever the cut falls. */
  lemma {:induction false} ReadOn(line: string, a: string, b: string)
    ensures Completed(line, a + b) == Completed(line, a) + Completed(Rest(line, a), b)
    ensures Rest(line, a + b) == Rest(Rest(line, a), b)
    decreases |a|
  {
    if a == [] {
      assert a + b == b;
    } else {
      assert (a + b)[1..] == a[1..] + b;
      ReadOn(if IsBreak(a[0]) then "" else line + [a[0]], a[1..], b);
    }
  }

  /** A current line without breaks can as well be read again. */
  lemma {:induction false} ReadAgain(line: string, s: string)
    requires NoBreak(line)
    ensures Completed("", line + s) == Completed(line, s) && Rest("", line + s) == Rest(line, s)
  {
    ReadPlain("", line);
    assert "" + line == line;
    ReadOn("", line, s);
  }

  lemma {:induction false} ReadPlain(line: string, s: string)
    requires NoBreak(s)
    ensures Completed(line, s) == [] && Rest(line, s) == line + s
    decreases |s|
  {
    if s != [] {
      ReadPlain(line + [s[0]], s[1..]);
      assert line + [s[0]] + s[1..] == line + s;
    } else {
      assert line + s == line;
    }
  }

  lemma {:induction false} NonEmptyOnto(a: seq<string>, b: seq<string>)
    ensures NonEmpty(a + b) == NonEmpty(a) + NonEmpty(b)
  {
    if a == [] {
      assert a + b == b;
    } else {
      assert (a + b)[1..] == a[1..] + b;
      NonEmptyOnto(a[1..], b);
    }
  }

  lemma NonEmptyNext(parts: seq<string>, i: nat)
    requires i < |parts|
    ensures NonEmpty(parts[..i + 1]) == NonEmpty(parts[..i]) + Closed(parts[i])
  {
    assert parts[..i + 1] == parts[..i] + [parts[i]];
    NonEmptyOnto(parts[..i], [parts[i]]);
  }

  /** The parts of a split that follow what has been read of the current line. */
  function Following(line: string, parts: seq<string>): seq<string>
    requires parts != []
  {
    [line + parts[0]] + parts[1..]
  }

  lemma FollowingNothing(parts: seq<string>)
    requires parts != []
    ensures Following("", parts) == parts
  {
    assert "" + parts[0] == parts[0];
  }

  /** The text read so far, told by the parts of a split: all but the last are complete. */
  ghost predicate Reads(line: string, s: string, parts: seq<string>) {
    && parts != []
    && Completed(line, s) == NonEmpty(parts[..|parts| - 1])
    && Rest(line, s) == parts[|parts| - 1]
  }

  lemma BreakReads(line: string, s: string, rest: seq<string>)
    requires s != [] && IsBreak(s[0]) && Reads("", s[1..], rest)
    ensures Reads(line, s, [line] + rest)
  {
    assert ([line] + rest)[..|rest|] == [line] + rest[..|rest| - 1];
    assert ([line] + rest[..|rest| - 1])[1..] == rest[..|rest| - 1];
  }

  lemma PlainReads(line: string, s: string, rest: seq<string>)
    requires s != [] && !IsBreak(s[0]) && rest != [] && Reads(line + [s[0]], s[1..], Following(line + [s[0]], rest))
    ensures Reads(line, s, Following(line, [[s[0]] + rest[0]] + rest[1..]))
  {
    hide NonEmpty;
    assert line + [s[0]] + rest[0] == line + ([s[0]] + rest[0]);
    assert Following(line + [s[0]], rest) == Following(line, [[s[0]] + rest[0]] + rest[1..]);
  }

  /** The line feed of a CRLF completes an empty line, which is dropped. */
  lemma FeedReads(s: string, rest: seq<string>)
    requires s != [] && s[0] == '\n' && Reads("", s[1..], rest)
    ensures Reads("", s, rest)
  {
  }

  /** The split of the normalised text: all its parts but the last are the completed lines, the last
      is the rest. */
  lemma {:induction false} SplitIsReading(line: string, s: string)
    ensures Reads(line, s, Following(line, Split(Normalize(s), '\n')))
    decreases |s|
  {
    if s == [] {
      assert line + "" == line;
    } else if IsBreak(s[0]) {
      SplitAtBreak(line, s);
    } else {
      var rest := Split(Normalize(s[1..]), '\n');
      assert Normalize(s)[1..] == Normalize(s[1..]);
      assert Split(Normalize(s), '\n') == [[s[0]] + rest[0]] + rest[1..];
      hide Split, Normalize, Reads, Following;
      SplitIsReading(line + [s[0]], s[1..]);
      PlainReads(line, s, rest);
    }
  }

  lemma {:induction false} SplitAtBreak(line: string, s: string)
    requires s != [] && IsBreak(s[0])
    ensures Reads(line, s, Following(line, Split(Normalize(s), '\n')))
    decreases |s|, 0
  {
    var crlf := s[0] == '\r' && |s| > 1 && s[1] == '\n';
    var after := if crlf then s[2..] else s[1..];
    var rest := Split(Normalize(after), '\n');
    assert Normalize(s) == ['\n'] + Normalize(after) && Normalize(s)[1..] == Normalize(after);
    assert Split(Normalize(s), '\n') == [[]] + rest;
    hide Split, Normalize, Reads;
    SplitIsReading("", after);
    FollowingNothing(rest);
    assert Following(line, [[]] + rest) == [line] + rest by { assert line + "" == line; }
    if crlf {
      assert s[1..][1..] == s[2..];
      FeedReads(s[1..], rest);
    }
    BreakReads(line, s, rest);
  }

  lemma SplitEmits(s: string)
    ensures var parts := Split(Normalize(s), '\n');
            && NonEmpty(parts[..|parts| - 1]) == Completed("", s)
            && NonEmpty(parts) == Completed("", s) + Closed(Rest("", s))
            && parts[|parts| - 1] == Rest("", s) && NoBreak(Rest("", s))
  {
    hide Split, Completed, Rest, Normalize, NonEmpty, Closed;
    var parts := Split(Normalize(s), '\n');
    SplitIsReading("", s);
    RestHasNoBreak("", s);
    FollowingNothing(parts);
    NonEmptyNext(parts, |parts| - 1);
    assert parts == parts[..|parts|];
  }

  /** The lines of a text are those completed by reading it, and what remains at its end. */
  lemma LinesByReading(s: string)
    ensures Lines(s) == Completed("", s) + Closed(Rest("", s))
  {
    hide Split, Completed, Rest, Normalize;
    SplitEmits(s);
  }

  // ----- lines with their ends ----------------------------------------------------------

  /** Lines, each followed by the end of a line. */
  ghost function Text(lines: seq<string>, ends: seq<string>): string
    requires |lines| == |ends|
  {
    if lines == [] then "" else lines[0] + ends[0] + Text(lines[1..], ends[1..])
  }

  lemma EndCloses(line: string, end: string)
    requires end in {"\n", "\r", "\r\n"}
    ensures Completed(line, end) == Closed(line) && Rest(line, end) == ""
  {
    assert Completed("", "") == [] && Rest("", "") == "";
    if |end| == 1 {
      assert end[1..] == "";
    } else {
      assert end[1..] == "\n" && end[1..][1..] == "";
      assert Completed("", "\n") == Closed("") + Completed("", "");
    }
  }

  ghost predicate AllEnds(ends: seq<string>) {
    forall end :: end in ends ==> end in {"\n", "\r", "\r\n"}
  }

  ghost predicate Unbroken(lines: seq<string>) {
    forall line :: line in lines ==> NoBreak(line)
  }

  lemma FirstAndRest(lines: seq<string>, ends: seq<string>)
    requires |lines| == |ends| > 0 && AllEnds(ends) && Unbroken(lines)
    ensures ends[0] in {"\n", "\r", "\r\n"} && NoBreak(lines[0]) && AllEnds(ends[1..]) && Unbroken(lines[1..])
  {
    hide NoBreak;
    assert lines[0] in lines && ends[0] in ends;
    assert forall line :: line in lines[1..] ==> line in lines;
    assert forall end :: end in ends[1..] ==> end in ends;
  }

  lemma {:induction false} TextReads(lines: seq<string>, ends: seq<string>, last: string)
    requires |lines| == |ends| && AllEnds(ends) && Unbroken(lines) && NoBreak(last)
    ensures Completed("", Text(lines, ends) + last) == NonEmpty(lines) && Rest("", Text(lines, ends) + last) == last
  {
    hide Completed, Rest, AllEnds, Unbroken, NoBreak;
    if lines == [] {
      ReadPlain("", last);
      assert "" + last == last;
    } else {
      FirstAndRest(lines, ends);
      var line, end, more := lines[0], ends[0], Text(lines[1..], ends[1..]) + last;
      assert Text(lines, ends) + last == line + (end + more);
      assert NonEmpty(lines) == Closed(line) + NonEmpty(lines[1..]);
      hide NonEmpty, Text, Closed;
      TextReads(lines[1..], ends[1..], last);
      ReadPlain("", line);
      assert "" + line == line;
      EndCloses(line, end);
      ReadOn("", line, end + more);
      ReadOn(line, end, more);
    }
  }

  /** However its lines are ended, with LF, CR or CRLF, the lines of a text are its lines; empty ones do not
      count. */
  lemma LinesOfText(lines: seq<string>, ends: seq<string>, last: string)
    requires |lines| == |ends| && AllEnds(ends)
    requires forall line :: line in lines + [last] ==> '\r' !in line && '\n' !in line
    ensures forall line :: line in Lines(Text(lines, ends) + last) <==> line in lines + [last] && line != ""
    ensures (forall line :: line in lines ==> line != "") ==>
              Lines(Text(lines, ends) + last) == lines + if last == "" then [] else [last]
  {
    hide Lines, Completed, Rest;
    forall line | line in lines + [last] ensures NoBreak(line) {}
    assert Unbroken(lines) && NoBreak(last);
    hide NoBreak, AllEnds;
    TextReads(lines, ends, last);
    LinesByReading(Text(lines, ends) + last);
    NonEmptyKeeps(lines);
    assert Lines(Text(lines, ends) + last) == NonEmpty(lines) + Closed(last);
  }

  lemma {:induction false} NonEmptyKeeps(parts: seq<string>)
    ensures forall part :: part in NonEmpty(parts) <==> part in parts && part != ""
    ensures (forall part :: part in parts ==> part != "") ==> NonEmpty(parts) == parts
  {
    if parts != [] {
      NonEmptyKeeps(parts[1..]);
      assert parts == [parts[0]] + parts[1..];
      assert forall part :: part in parts <==> part == parts[0] || part in parts[1..];
      assert parts[0] in parts;
      assert NonEmpty(parts) == (if parts[0] == "" then [] else [parts[0]]) + NonEmpty(parts[1..]);
    } else {
      assert NonEmpty(parts) == [];
    }
  }

  // ----- the writer ---------------------------------------------------------------------

  function Concat(chunks: seq<string>): string {
    if chunks == [] then "" else Concat(chunks[..|chunks| - 1]) + chunks[|chunks| - 1]
  }

  function Prefix(s: string, limit: int): string {
    if |s| <= limit then s else if limit <= 0 then "" else s[..limit]
  }

  lemma PrefixGrows(s: string, more: string, limit: nat)
    ensures Prefix(s + more, limit) == Prefix(s, limit) + Prefix(more, limit - |Prefix(s, limit)|)
  {
  }

  class ProgressWriter {
    var output: string
    var pending: string
    var remaining: int
    const hasCallback: bool
    /** The lines the callback has received. */
    var received: seq<string>

    ghost predicate Valid()
      reads this
    {
      NoBreak(pending) && (hasCallback || pending == "")
    }

    constructor (limit: int, callback: bool)
      ensures Valid() && hasCallback == callback && remaining == limit
      ensures output == "" && pending == "" && received == []
    {
      output, pending, remaining, hasCallback, received := "", "", limit, callback, [];
    }

    /** Calling an absent callback would crash the program. */
    method OnOutput(line: string)
      requires hasCallback && line != ""
      modifies this`received
      ensures received == old(received) + [line]
    {
      received := received + [line];
    }

    method EmitLines(flush: bool)
      requires hasCallback || pending == ""
      modifies this`pending, this`received
      ensures Valid()
      ensures received ==
                  old(received) + Completed("", old(pending)) + if flush then Closed(Rest("", old(pending))) else []
      ensures pending == if flush then "" else Rest("", old(pending))
    {
      var parts := Split(Normalize(pending), '\n');
      assert NonEmpty(parts[..0]) == [];
      hide Split, Completed, Rest, NonEmpty;
      SplitEmits(pending);
      assert pending == "" ==> parts == [""] by { SplitWhole("", '\n'); }
      var limit := if flush then |parts| else |parts| - 1;
      for index := 0 to limit
        invariant received == old(received) + NonEmpty(parts[..index])
      {
        NonEmptyNext(parts, index);
        if parts[index] != "" {
          OnOutput(parts[index]);
        }
      }
      assert parts == parts[..|parts|];
      pending := if flush then "" else parts[|parts| - 1];
    }

    method Write(p: string) returns (n: nat)
      requires Valid()
      modifies this
      ensures Valid() && n == |p|
      ensures output == old(output) + Prefix(p, old(remaining))
      ensures remaining == old(remaining) - |Prefix(p, old(remaining))|
      ensures hasCallback ==> received == old(received) + Completed(old(pending), Prefix(p, old(remaining)))
      ensures hasCallback ==> pending == Rest(old(pending), Prefix(p, old(remaining)))
      ensures !hasCallback ==> received == old(received) && pending == ""
    {
      n := |p|;
      if remaining <= 0 {
        return;
      }
      var q := p;
      if |q| > remaining {
        q := q[..remaining];
      }
      remaining := remaining - |q|;
      output := output + q;
      if hasCallback {
        ReadAgain(pending, q);
        pending := pending + q;
        EmitLines(false);
      }
    }

    method Flush()
      requires Valid()
      modifies this`pending, this`received
      ensures Valid() && pending == ""
      ensures received == old(received) + Closed(old(pending))
    {
      ReadPlain("", pending);
      assert "" + pending == pending;
      EmitLines(true);
    }
  }

  /** The life of a writer in one command run: any writes, then one flush. However the stream is cut,
      the buffer holds its first bytes and the callback got exactly the lines of that prefix. */
  method Collect(chunks: seq<string>, limit: nat, callback: bool) returns (w: ProgressWriter)
    ensures w.output <= Concat(chunks)
    ensures |w.output| == if |Concat(chunks)| < limit then |Concat(chunks)| else limit
    ensures w.received == if callback then Lines(w.output) else []
  {
    hide Completed, Rest, Lines;
    w := new ProgressWriter(limit, callback);
    assert Completed("", "") == [] && Rest("", "") == "" by { ReadPlain("", ""); }
    for i := 0 to |chunks|
      invariant fresh(w) && w.Valid() && w.hasCallback == callback
      invariant w.output == Prefix(Concat(chunks[..i]), limit)
      invariant w.remaining == limit - |w.output|
      invariant callback ==> w.received == Completed("", w.output) && w.pending == Rest("", w.output)
      invariant !callback ==> w.received == [] && w.pending == ""
    {
      assert chunks[..i + 1][..i] == chunks[..i];
      PrefixGrows(Concat(chunks[..i]), chunks[i], limit);
      ReadOn("", w.output, Prefix(chunks[i], w.remaining));
      var n := w.Write(chunks[i]);
    }
    assert chunks[..|chunks|] == chunks;
    LinesByReading(w.output);
    w.Flush();
  }
}
