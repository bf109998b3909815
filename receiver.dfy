/** The deduplicating receiver of receiver/receiver.py: the module-level set of packet ids
    already seen, the receive callback `on_message`, and the append behaviour of
    `save_to_excel` on the spreadsheet of received messages. */
module Receiver {
  import opened Wrappers
  import opened Packets

  /** The dedup key of a packet: `packet.get('id')`, which is `None` for every packet
      without an id. */
  type Key = Option<int>

  function KeyOf(p: Packet): (k: Key)
    ensures k.None? <==> p.id.None?
  {
    p.id
  }

  /** One call of the callback, with what it gets from its environment: the local time
      it formats and whether the spreadsheet write succeeds. */
  datatype Delivery = Delivery(packet: Packet, now: string, saveOk: bool)

  /** The receiver's state: the ids seen so far and the rows of the spreadsheet. */
  datatype State = State(seen: set<Key>, records: seq<Record>)

  /** `save_to_excel`: on success the stored rows are the existing rows followed by the
      new ones; a failed write is caught and leaves the stored rows as they were. */
  function Appended(existing: seq<Record>, messages: seq<Record>, ok: bool): (r: seq<Record>)
    ensures existing <= r
    ensures ok ==> r[|existing|..] == messages
    ensures !ok ==> r == existing
  {
    if ok then existing + messages else existing
  }

  /** The spreadsheet file as `save_to_excel` meets it: absent, opened for writing and so
      emptied, or a workbook holding rows. */
  datatype Workbook = Missing | Emptied | Sheet(rows: seq<Record>)

  /** `pd.read_excel`: a missing file or one with no workbook in it raises. */
  function ReadExcel(f: Workbook): (r: Option<seq<Record>>)
    ensures r.Some? <==> f.Sheet?
  {
    if f.Sheet? then Some(f.rows) else None
  }

  /** `save_to_excel` as written, with a writer that opens its target for writing when it
      is created (line 62): the existence test (line 64) then always holds, reading the
      emptied file (line 65) raises, and leaving the `with` block saves a workbook with no
      rows. The handler at lines 102-103 swallows the error. */
  function SaveAsWritten(file: Workbook, messages: seq<Record>): Workbook
  {
    var target := Emptied;
    if target == Missing then Sheet(messages)
    else
      match ReadExcel(target)
      case None => Sheet([])
      case Some(existing) => Sheet(existing + messages)
  }

  /** Under that writer the earlier rows, and the new one, are lost: the stored rows are
      not the existing rows followed by the new ones, unlike `Appended`. */
  lemma SaveAsWrittenLosesRows(existing: seq<Record>, m: Record)
    ensures SaveAsWritten(Sheet(existing), [m]) == Sheet([])
    ensures !(existing + [m] <= SaveAsWritten(Sheet(existing), [m]).rows)
  {
  }

  /** One call of `on_message`. A packet whose key was seen is dropped; otherwise the key
      is marked first and the row, if it can be built, is saved. */
  function Deliver(s: State, d: Delivery): (t: State)
    ensures KeyOf(d.packet) in s.seen ==> t == s
    ensures KeyOf(d.packet) !in s.seen ==> t.seen == s.seen + {KeyOf(d.packet)}
    ensures s.records <= t.records && |t.records| <= |s.records| + 1
    ensures |t.records| == |s.records| + 1 <==>
              KeyOf(d.packet) !in s.seen && Project(d.packet, d.now).Some? && d.saveOk
    ensures |t.records| == |s.records| + 1 ==> t.records[|s.records|] == Project(d.packet, d.now).value
  {
    if KeyOf(d.packet) in s.seen then s
    else
      var seen := s.seen + {KeyOf(d.packet)};
      match Project(d.packet, d.now)
      case None => State(seen, s.records)
      case Some(m) => State(seen, Appended(s.records, [m], d.saveOk))
  }

  /** The state after the callback has run on each delivery in turn. */
  function Run(s: State, ds: seq<Delivery>): (t: State)
    ensures s.seen <= t.seen && s.records <= t.records
    decreases |ds|
  {
    if ds == [] then s else Run(Deliver(s, ds[0]), ds[1..])
  }

  function Keys(ds: seq<Delivery>): (ks: set<Key>)
  {
    set d | d in ds :: KeyOf(d.packet)
  }

  /** Running one more delivery is one more callback after the run so far. */
  lemma {:induction false} RunSnoc(s: State, ds: seq<Delivery>, d: Delivery)
    ensures Run(s, ds + [d]) == Deliver(Run(s, ds), d)
    decreases |ds|
  {
    if ds == [] {
      assert [] + [d] == [d];
    } else {
      assert (ds + [d])[1..] == ds[1..] + [d];
      RunSnoc(Deliver(s, ds[0]), ds[1..], d);
    }
  }

  /** The seen set only grows, by exactly the keys delivered, and the stored rows only
      grow at the end. */
  lemma {:induction false} RunGrows(s: State, ds: seq<Delivery>)
    ensures Run(s, ds).seen == s.seen + Keys(ds)
    ensures s.records <= Run(s, ds).records
    decreases |ds|
  {
    if ds != [] {
      RunGrows(Deliver(s, ds[0]), ds[1..]);
      assert ds == [ds[0]] + ds[1..];
      assert Keys(ds) == {KeyOf(ds[0].packet)} + Keys(ds[1..]);
    }
  }

  /** A second call with an id already seen changes nothing, whatever became of the first
      call's save: delivery is idempotent per id. */
  lemma DeliverTwice(s: State, d: Delivery, e: Delivery)
    requires KeyOf(e.packet) == KeyOf(d.packet)
    ensures Deliver(Deliver(s, d), e) == Deliver(s, d)
  {
  }

  /** At most once: a delivery whose id occurred earlier in the run adds no row and
      leaves the state unchanged. */
  lemma AtMostOnce(s: State, ds: seq<Delivery>, i: nat, j: nat)
    requires i < j < |ds| && KeyOf(ds[i].packet) == KeyOf(ds[j].packet)
    ensures Run(s, ds[..j + 1]) == Run(s, ds[..j])
  {
    assert ds[..j + 1] == ds[..j] + [ds[j]];
    RunSnoc(s, ds[..j], ds[j]);
    RunGrows(s, ds[..j]);
    assert ds[i] in ds[..j];
  }

  /** A run stores at most one row per id it newly marks as seen. */
  lemma {:induction false} RowsPerNewKey(s: State, ds: seq<Delivery>)
    ensures |Run(s, ds).records| <= |s.records| + |Run(s, ds).seen - s.seen|
    decreases |ds|
  {
    if ds != [] {
      var s1 := Deliver(s, ds[0]);
      var t := Run(s, ds);
      RowsPerNewKey(s1, ds[1..]);
      RunGrows(s1, ds[1..]);
      var k := KeyOf(ds[0].packet);
      if k !in s.seen {
        assert t.seen - s.seen == (t.seen - s1.seen) + {k};
        assert k !in t.seen - s1.seen;
      }
    }
  }

  /** A failed save is not retried: the id is already marked, so a redelivery of the
      packet is dropped and the row is never stored. */
  lemma FailedSaveIsFinal(s: State, d: Delivery, ds: seq<Delivery>)
    requires KeyOf(d.packet) !in s.seen && !d.saveOk
    requires forall e :: e in ds ==> KeyOf(e.packet) == KeyOf(d.packet)
    ensures Run(s, [d] + ds) == State(s.seen + {KeyOf(d.packet)}, s.records)
  {
    var s1 := Deliver(s, d);
    assert ([d] + ds)[1..] == ds;
    RunConstant(s1, ds);
  }

  /** Deliveries whose ids are all seen already change nothing. */
  lemma {:induction false} RunConstant(s: State, ds: seq<Delivery>)
    requires forall e :: e in ds ==> KeyOf(e.packet) in s.seen
    ensures Run(s, ds) == s
    decreases |ds|
  {
    if ds != [] {
      assert ds[0] in ds;
      assert forall e :: e in ds[1..] ==> e in ds;
      RunConstant(s, ds[1..]);
    }
  }

  /** Ids 1001, 1001, 1002 delivered in that order store two rows, for 1001 and 1002, in
      that order. */
  lemma DuplicateExample(now1: string, now2: string, now3: string)
    ensures
      var p1 := Packet(Some(1001), Some(Fields(Some("hello"))), Some(7), None);
      var p2 := Packet(Some(1002), Some(Fields(Some("world"))), Some(7), None);
      var ds := [Delivery(p1, now1, true), Delivery(p1, now2, true), Delivery(p2, now3, true)];
      Run(State({}, []), ds).records
        == [Record(now1, "hello", Node(7), Broadcast), Record(now3, "world", Node(7), Broadcast)]
  {
    var p1 := Packet(Some(1001), Some(Fields(Some("hello"))), Some(7), None);
    var p2 := Packet(Some(1002), Some(Fields(Some("world"))), Some(7), None);
    var ds := [Delivery(p1, now1, true), Delivery(p1, now2, true), Delivery(p2, now3, true)];
    var s1 := Deliver(State({}, []), ds[0]);
    var s2 := Deliver(s1, ds[1]);
    var s3 := Deliver(s2, ds[2]);
    assert s1.records == [Record(now1, "hello", Node(7), Broadcast)];
    assert s2 == s1;
    assert s3.records == s1.records + [Record(now3, "world", Node(7), Broadcast)];
    assert ds[1..][1..] == ds[2..] && ds[2..][1..] == [];
    assert Run(State({}, []), ds) == Run(s1, ds[1..]) == Run(s2, ds[2..]) == Run(s3, []);
  }

  /** All packets without an id share the key `None`: only the first of them is stored. */
  lemma MissingIdsCollide(s: State, d: Delivery, e: Delivery)
    requires d.packet.id.None? && e.packet.id.None? && None !in s.seen
    requires d.packet.decoded != Some(NotADict) && d.saveOk
    ensures Run(s, [d, e]).records == s.records + [Project(d.packet, d.now).value]
  {
    var s1 := Deliver(s, d);
    assert s1.records == s.records + [Project(d.packet, d.now).value];
    assert Deliver(s1, e) == s1;
    assert [d, e][1..] == [e];
    assert [e][1..] == [];
    assert Run(s, [d, e]) == Run(s1, [e]) == Run(s1, []);
  }

  /** The module-level state of receiver/receiver.py: `received_messages` and the rows of
      received_messages.xlsx (empty when the file does not exist). */
  class Receiver {
    var seen: set<Key>
    var records: seq<Record>

    /** Module load: an empty `received_messages`; the spreadsheet holds whatever an earlier
        run left in it. */
    constructor (existing: seq<Record>)
      ensures seen == {} && records == existing
    {
      seen := {};
      records := existing;
    }

    function Snapshot(): (st: State)
      reads this
    {
      State(seen, records)
    }

    /** `save_to_excel(messages)`, with `ok` whether the write succeeds. */
    method SaveToExcel(messages: seq<Record>, ok: bool)
      modifies this
      ensures seen == old(seen)
      ensures records == Appended(old(records), messages, ok)
      ensures old(records) <= records
    {
      if ok {
        records := records + messages;
      }
    }

    /** `on_message(packet, interface)`. */
    method OnMessage(packet: Packet, now: string, saveOk: bool)
      modifies this
      ensures Snapshot() == Deliver(old(Snapshot()), Delivery(packet, now, saveOk))
      ensures old(seen) <= seen && old(records) <= records
    {
      if KeyOf(packet) in seen {
        return;
      }
      seen := seen + {KeyOf(packet)};
      var message := Project(packet, now);
      if message.None? {
        return;
      }
      SaveToExcel([message.value], saveOk);
    }
  }
}
