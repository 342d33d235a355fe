/**
 The weather thread and its filter. Both hold the same list object: the filter appends
 reports to it, the thread saves the list and clears it in place, never rebinding it.
 */
module Weather {
  import Pipeline

  datatype Report = Report(station: nat, body: string)

  /** What becomes of a queued packet: conversion, station lookup and validation are given. */
  datatype Incoming = NotWeather | Unconvertible | NoStation | Invalid | Good(report: Report)

  /** The reports that the packets of a queue yield when there is a database. */
  function ReportsOf(packets: seq<Incoming>): seq<Report> {
    if packets == [] then []
    else (if packets[0].Good? then [packets[0].report] else []) + ReportsOf(packets[1..])
  }

  lemma {:induction false} ReportsAppend(a: seq<Incoming>, b: seq<Incoming>)
    ensures ReportsOf(a + b) == ReportsOf(a) + ReportsOf(b)
  {
    if a == [] {
      assert a + b == b;
    } else {
      ReportsAppend(a[1..], b);
      assert (a + b)[0] == a[0] && (a + b)[1..] == a[1..] + b;
      var first := if a[0].Good? then [a[0].report] else [];
      assert first + (ReportsOf(a[1..]) + ReportsOf(b)) == (first + ReportsOf(a[1..])) + ReportsOf(b);
    }
  }

  lemma OneMoreReport(packets: seq<Incoming>, n: nat)
    requires n < |packets|
    ensures ReportsOf(packets[..n + 1]) == ReportsOf(packets[..n]) + ReportsOf([packets[n]])
    ensures packets[n..][1..] == packets[n + 1..]
  {
    assert packets[..n + 1] == packets[..n] + [packets[n]];
    ReportsAppend(packets[..n], [packets[n]]);
  }

  /** What is pending after a pass with a database: a save is due when the queue is empty or 500 reports are there. */
  function PendingAfter(pending: seq<Report>, packets: seq<Incoming>, commits: bool): seq<Report> {
    if packets == [] then (if commits then [] else pending)
    else
      var all := pending + ReportsOf([packets[0]]);
      if commits && |all| >= 500 then [] else all
  }

  /** A Python list: an object that several holders share. */
  class ReportList {
    var items: seq<Report>

    constructor ()
      ensures items == []
    {
      items := [];
    }

    method Append(report: Report)
      modifies this
      ensures items == old(items) + [report]
    {
      items := items + [report];
    }

    method Clear()
      modifies this
      ensures items == []
    {
      items := [];
    }
  }

  /** The report counter of the shared statistics, and the stored reports. */
  class ReportBooks {
    var reportCounter: nat
    var stored: seq<Report>

    constructor ()
      ensures reportCounter == 0 && stored == []
    {
      reportCounter, stored := 0, [];
    }
  }

  class WeatherPacketFilter {
    var reports: ReportList
    const books: ReportBooks
    const statsOnly: bool

    constructor (reports: ReportList, books: ReportBooks, statsOnly: bool)
      ensures this.reports == reports && this.books == books && this.statsOnly == statsOnly
    {
      this.reports, this.books, this.statsOnly := reports, books, statsOnly;
    }

    method Filter(packet: Incoming)
      modifies reports, books`reportCounter
      ensures !statsOnly ==> reports.items == old(reports.items) + ReportsOf([packet])
      ensures !statsOnly ==> books.reportCounter == old(books.reportCounter) + |ReportsOf([packet])|
      ensures statsOnly ==> reports.items == old(reports.items)
      ensures statsOnly ==> books.reportCounter == old(books.reportCounter)
                                                   + (if packet.NotWeather? || packet.Unconvertible? then 0 else 1)
    {
      assert [packet][1..] == [];
      if packet.NotWeather? || packet.Unconvertible? {
        return;
      }
      if statsOnly {
        books.reportCounter := books.reportCounter + 1;
        return;
      }
      if packet.Good? {
        reports.Append(packet.report);
        books.reportCounter := books.reportCounter + 1;
      }
    }
  }

  /** How one pass of the thread ends: whether its save, if it makes one, commits. */
  class WeatherPacketProcessorThread {
    var packetQueue: seq<Incoming>
    const statsOnly: bool
    const books: ReportBooks
    var reports: ReportList
    const weatherFilter: WeatherPacketFilter

    /** The thread and its filter hold one list. */
    predicate Valid()
      reads this, weatherFilter
    {
      weatherFilter.reports == reports && weatherFilter.books == books && weatherFilter.statsOnly == statsOnly
    }

    /** Every report made so far, stored ones first. */
    function Held(): seq<Report>
      reads this, reports, books
    {
      books.stored + reports.items
    }

    constructor (packets: seq<Incoming>, books: ReportBooks, statsOnly: bool)
      ensures Valid() && fresh(reports) && reports.items == []
      ensures packetQueue == packets && this.books == books && this.statsOnly == statsOnly
    {
      var list := new ReportList();
      packetQueue, this.books, this.statsOnly := packets, books, statsOnly;
      reports := list;
      weatherFilter := new WeatherPacketFilter(list, books, statsOnly);
    }

    /** A failed save keeps the reports for the next one; nothing is dropped, nothing stored twice. */
    method SaveReports(commits: bool)
      requires Valid()
      modifies reports, books`stored
      ensures !statsOnly ==> Held() == old(Held())
      ensures !statsOnly && commits ==> reports.items == []
      ensures !statsOnly && !commits ==> books.stored == old(books.stored) && reports.items == old(reports.items)
      ensures statsOnly ==> reports.items == [] && books.stored == old(books.stored)
    {
      if reports.items == [] {
        return;
      }
      if statsOnly {
        reports.Clear();
        return;
      }
      if commits {
        books.stored := books.stored + reports.items;
        reports.Clear();
      }
    }

    method Loop(commits: bool) returns (alive: bool)
      requires Valid()
      modifies this`packetQueue, reports, books
      ensures Valid() && alive
      ensures packetQueue == if old(packetQueue) == [] then [] else old(packetQueue)[1..]
      ensures !statsOnly ==>
        Held() == old(Held()) + (if old(packetQueue) == [] then [] else ReportsOf([old(packetQueue)[0]]))
      ensures !statsOnly ==> books.reportCounter - |Held()| == old(books.reportCounter) - |old(Held())|
      ensures !statsOnly && commits ==> |reports.items| < Pipeline.BATCH_SIZE
      ensures !statsOnly ==> reports.items == PendingAfter(old(reports.items), old(packetQueue), commits)
      ensures statsOnly && old(packetQueue) == [] ==> reports.items == []
    {
      alive := true;
      if packetQueue == [] {
        SaveReports(commits);
        return;
      }
      var packet := packetQueue[0];
      packetQueue := packetQueue[1..];
      weatherFilter.Filter(packet);
      if |reports.items| >= Pipeline.BATCH_SIZE {
        SaveReports(commits);
      }
    }

    /** run(): passes until told to stop, then one last save; `fates` says how each save ends. */
    method Run(fates: seq<bool>, lastCommits: bool)
      requires Valid()
      modifies this`packetQueue, reports, books
      ensures Valid()
      ensures !statsOnly ==>
        var passed := if |fates| < |old(packetQueue)| then |fates| else |old(packetQueue)|;
        && packetQueue == old(packetQueue)[passed..]
        && Held() == old(Held()) + ReportsOf(old(packetQueue)[..passed])
        && books.reportCounter - |Held()| == old(books.reportCounter) - |old(Held())|
        && (lastCommits ==> reports.items == [])
    {
      ghost var packets, passed := packetQueue, 0;
      for n := 0 to |fates|
        invariant Valid() && passed == if n < |packets| then n else |packets|
        invariant packetQueue == packets[passed..]
        invariant !statsOnly ==> Held() == old(Held()) + ReportsOf(packets[..passed])
        invariant !statsOnly ==> books.reportCounter - |Held()| == old(books.reportCounter) - |old(Held())|
      {
        var alive := Loop(fates[n]);
        if passed < |packets| {
          OneMoreReport(packets, passed);
          passed := passed + 1;
        }
      }
      SaveReports(lastCommits);
    }
  }
}
