/** The line logger of receiver/log_receiver.py: every non-blank line read from the serial
    port is stripped, stamped with the local time and appended to received_messages.txt,
    which is flushed after every entry. */
module LogReceiver {
  import opened Wrappers
  import opened Text

  /** One line as `readline().decode('utf-8')` returns it, with the formatted local time
      at which the loop handles it. */
  datatype Incoming = Incoming(raw: string, now: string)

  /** A logged entry, read back: its timestamp and its text. */
  datatype Entry = Entry(timestamp: string, text: string)

  /** What `readline()` returns: a line break can only be its last character. */
  predicate ReadlineShaped(s: string)
  {
    forall k :: 0 <= k < |s| - 1 ==> s[k] != '\n'
  }

  /** A timestamp as `strftime("%Y-%m-%d %H:%M:%S")` produces it has neither a closing
      bracket nor a line break. */
  predicate PlainTimestamp(ts: string)
  {
    ']' !in ts && '\n' !in ts
  }

  /** The text written for one line: `[ts] line` and a line break, which is its only
      line break when neither part holds one. */
  function FormatEntry(ts: string, line: string): (e: string)
    ensures |e| == |ts| + |line| + 4 && e[0] == '[' && e[|e| - 1] == '\n'
    ensures '\n' !in ts && '\n' !in line ==> forall k :: 0 <= k < |e| - 1 ==> e[k] != '\n'
  {
    "[" + ts + "] " + line + "\n"
  }

  /** What the loop writes for one incoming line: nothing for a blank line, else its entry. */
  function LineOutput(x: Incoming): (o: string)
    ensures o == [] <==> AllSpace(x.raw)
    ensures o != [] ==> |o| == |x.now| + |Strip(x.raw)| + 4 && o[0] == '[' && o[|o| - 1] == '\n'
  {
    var line := Strip(x.raw);
    if line == [] then "" else FormatEntry(x.now, line)
  }

  /** Everything the loop writes for a sequence of incoming lines, in arrival order; it is
      empty exactly when every line is blank. */
  function LogText(xs: seq<Incoming>): (t: string)
    ensures t == [] <==> forall k :: 0 <= k < |xs| ==> AllSpace(xs[k].raw)
    decreases |xs|
  {
    if xs == [] then "" else LineOutput(xs[0]) + LogText(xs[1..])
  }

  /** The entries that a sequence of incoming lines produces: one per non-blank line, in
      order, each a non-empty text with no whitespace at either end. */
  function Kept(xs: seq<Incoming>): (r: seq<Entry>)
    ensures |r| <= |xs|
    ensures forall k :: 0 <= k < |r| ==> r[k].text != [] && Trimmed(r[k].text)
    decreases |xs|
  {
    if xs == [] then []
    else
      var line := Strip(xs[0].raw);
      if line == [] then Kept(xs[1..]) else [Entry(xs[0].now, line)] + Kept(xs[1..])
  }

  /** The position of the first `c` in `s`, if any. */
  function IndexOf(s: string, c: char): (r: Option<nat>)
    ensures r.None? ==> c !in s
    ensures r.Some? ==> r.value < |s| && s[r.value] == c && c !in s[..r.value]
    decreases |s|
  {
    if s == [] then None
    else if s[0] == c then Some(0)
    else
      match IndexOf(s[1..], c)
      case None => None
      case Some(k) =>
        assert s[..k + 1] == [s[0]] + s[1..][..k];
        Some(k + 1)
  }

  /** Reads one entry without its line break: `[`, the timestamp up to the first `]`,
      a space, then the text. */
  function ParseEntry(e: string): (r: Option<Entry>)
  {
    if e == [] || e[0] != '[' then None
    else
      match IndexOf(e[1..], ']')
      case None => None
      case Some(j) =>
        if j + 2 < |e| && e[j + 2] == ' ' then Some(Entry(e[1..j + 1], e[j + 3..])) else None
  }

  /** Reads a whole log back as its entries, one per line. */
  function ParseLog(log: string): (r: Option<seq<Entry>>)
    decreases |log|
  {
    if log == [] then Some([])
    else
      match IndexOf(log, '\n')
      case None => None
      case Some(k) =>
        match ParseEntry(log[..k])
        case None => None
        case Some(e) =>
          match ParseLog(log[k + 1..])
          case None => None
          case Some(es) => Some([e] + es)
  }

  lemma {:induction false} IndexOfFirst(a: string, c: char, b: string)
    requires c !in a
    ensures IndexOf(a + [c] + b, c) == Some(|a|)
    decreases |a|
  {
    if a != [] {
      assert (a + [c] + b)[1..] == a[1..] + [c] + b;
      IndexOfFirst(a[1..], c, b);
    }
  }

  /** An entry reads back as the timestamp and text it was written from. */
  lemma EntryRoundTrip(ts: string, line: string)
    requires ']' !in ts
    ensures ParseEntry("[" + ts + "] " + line) == Some(Entry(ts, line))
  {
    var e := "[" + ts + "] " + line;
    assert e[1..] == ts + [']'] + (" " + line);
    IndexOfFirst(ts, ']', " " + line);
    assert e[1..|ts| + 1] == ts;
    assert e[|ts| + 3..] == line;
  }

  /** A line from `readline` keeps no line break once stripped. */
  lemma StripReadline(raw: string)
    requires ReadlineShaped(raw)
    ensures '\n' !in Strip(raw)
  {
    var r := Strip(raw);
    var i := StripPosition(raw);
    forall m | 0 <= m < |r| ensures r[m] != '\n' {
      assert r[m] == raw[i + m];
      if m == |r| - 1 {
        assert !IsSpace(r[m]);
      }
    }
  }

  /** A log that starts with one well-formed line reads back as that line's entry
      followed by the rest. */
  lemma ParseLogCons(ts: string, line: string, rest: string, es: seq<Entry>)
    requires PlainTimestamp(ts) && '\n' !in line
    requires ParseLog(rest) == Some(es)
    ensures ParseLog(FormatEntry(ts, line) + rest) == Some([Entry(ts, line)] + es)
  {
    var body := "[" + ts + "] " + line;
    var log := FormatEntry(ts, line) + rest;
    assert log == body + ['\n'] + rest;
    assert '\n' !in body;
    IndexOfFirst(body, '\n', rest);
    assert log[..|body|] == body;
    assert log[|body| + 1..] == rest;
    EntryRoundTrip(ts, line);
  }

  /** The log the loop writes reads back as exactly the non-blank lines, stripped, with
      their timestamps, in arrival order. */
  lemma {:induction false} LogRoundTrip(xs: seq<Incoming>)
    requires forall k :: 0 <= k < |xs| ==> ReadlineShaped(xs[k].raw) && PlainTimestamp(xs[k].now)
    ensures ParseLog(LogText(xs)) == Some(Kept(xs))
    decreases |xs|
  {
    if xs != [] {
      var x := xs[0];
      var rest := LogText(xs[1..]);
      LogRoundTrip(xs[1..]);
      var line := Strip(x.raw);
      assert LogText(xs) == LineOutput(x) + rest;
      if line == [] {
        assert LineOutput(x) == [];
        assert LogText(xs) == rest;
      } else {
        StripReadline(x.raw);
        assert LineOutput(x) == FormatEntry(x.now, line);
        ParseLogCons(x.now, line, rest, Kept(xs[1..]));
      }
    }
  }

  /** Writing the lines one after another writes their outputs in arrival order. */
  lemma {:induction false} LogTextSnoc(xs: seq<Incoming>, x: Incoming)
    ensures LogText(xs + [x]) == LogText(xs) + LineOutput(x)
    decreases |xs|
  {
    if xs == [] {
      assert [] + [x] == [x];
      assert [x][1..] == [];
    } else {
      var ys := xs + [x];
      assert ys[0] == xs[0] && ys[1..] == xs[1..] + [x];
      LogTextSnoc(xs[1..], x);
      assert LogText(ys) == LineOutput(xs[0]) + (LogText(xs[1..]) + LineOutput(x));
      AppendAssoc(LineOutput(xs[0]), LogText(xs[1..]), LineOutput(x));
    }
  }

  /** received_messages.txt opened in append mode: `written` is everything handed to
      `write`, `durable` what has reached the file. */
  class LogFile {
    var written: string
    var durable: string

    ghost predicate Valid()
      reads this
    {
      durable <= written
    }

    /** `open(name, 'a')`: the existing contents stay and nothing is buffered. */
    constructor Open(existing: string)
      ensures Valid() && written == existing && durable == existing
    {
      written := existing;
      durable := existing;
    }

    /** `write(s)`: appended to what was written; a write larger than the buffer may
        already reach the file. */
    method Write(s: string)
      requires Valid()
      modifies this
      ensures Valid() && written == old(written) + s && old(durable) <= durable
    {
      written := written + s;
    }

    /** `flush()`: everything written reaches the file. */
    method Flush()
      requires Valid()
      modifies this
      ensures Valid() && durable == written && written == old(written)
    {
      durable := written;
    }
  }

  /** Stated over plain strings so that `LogStep` stays within the verifier's resource limit. */
  lemma AppendAssoc(a: string, b: string, c: string)
    ensures (a + b) + c == a + (b + c)
  {
  }

  /** One more pass of the loop extends the log by that line's output. */
  lemma LogStep(start: string, xs: seq<Incoming>, i: nat)
    requires i < |xs|
    ensures (start + LogText(xs[..i])) + LineOutput(xs[i]) == start + LogText(xs[..i + 1])
  {
    assert xs[..i + 1] == xs[..i] + [xs[i]];
    LogTextSnoc(xs[..i], xs[i]);
    AppendAssoc(start, LogText(xs[..i]), LineOutput(xs[i]));
  }

  /** The body of the loop for one line read from the port. */
  method HandleLine(file: LogFile, x: Incoming)
    requires file.Valid() && file.durable == file.written
    modifies file
    ensures file.Valid() && file.durable == file.written
    ensures file.written == old(file.written) + LineOutput(x)
  {
    var line := Strip(x.raw);
    if line != [] {
      file.Write(FormatEntry(x.now, line));
      file.Flush();
    }
  }

  /** The loop of `main` over the lines read from the port, in order, after the log was
      opened: the earlier contents stay as a prefix, each line's output follows in arrival
      order, and the file holds everything written after every entry. */
  method LogLines(file: LogFile, xs: seq<Incoming>)
    requires file.Valid() && file.durable == file.written
    modifies file
    ensures file.Valid() && file.durable == file.written
    ensures file.written == old(file.written) + LogText(xs)
  {
    ghost var start := file.written;
    var i := 0;
    while i < |xs|
      invariant 0 <= i <= |xs|
      invariant file.Valid() && file.durable == file.written
      invariant file.written == start + LogText(xs[..i])
    {
      HandleLine(file, xs[i]);
      LogStep(start, xs, i);
      i := i + 1;
    }
    assert xs[..i] == xs;
  }
}
