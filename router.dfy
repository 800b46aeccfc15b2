/** The write step both scripts share: each row outcome becomes one row of
    the clean file or one row of the error file, read back in the order of
    the renamed header, and the job log collects the events of all rows
    between the start and finish markers. */
module Router {
  import opened Text
  import opened Audit
  import opened Rows

  /** The rows one or more outcomes add to the clean file and to the error
      file. */
  datatype Routing = Routing(clean: seq<seq<string>>, errors: seq<seq<string>>)

  /** The three outputs of a run: the clean file, the error file (both with
      their header rows) and the job log. */
  datatype Files = Files(clean: seq<seq<string>>, errors: seq<seq<string>>, log: seq<LogEvent>)

  /** The extra error_desc cell: the reasons joined by "," with no space. */
  function ErrorCell(reasons: seq<string>): string {
    Join(",", reasons)
  }

  /** One outcome becomes exactly one output row: a clean row when it has no
      error reason, an error row otherwise; both are the row's values in
      header order, and the error row carries the reasons in one more cell. */
  function RouteRow(header: seq<string>, o: RowOutcome): (r: Routing)
    ensures |r.clean| + |r.errors| == 1
    ensures |r.clean| == 1 <==> o.errors == []
    ensures |r.clean| == 1 ==> |r.clean[0]| == |header| && r.clean[0] == Project(o.row, header)
    ensures |r.errors| == 1 ==> |r.errors[0]| == |header| + 1
                                && r.errors[0][..|header|] == Project(o.row, header)
                                && r.errors[0][|header|] == ErrorCell(o.errors)
  {
    var values := Project(o.row, header);
    if o.errors == [] then Routing([values], [])
    else Routing([], [values + [ErrorCell(o.errors)]])
  }

  /** The routing of a whole run, outcome by outcome, in input order. */
  function RouteAll(header: seq<string>, os: seq<RowOutcome>): (r: Routing)
    ensures |r.clean| + |r.errors| == |os|
  {
    if os == [] then Routing([], [])
    else
      var before := RouteAll(header, os[..|os| - 1]);
      var last := RouteRow(header, os[|os| - 1]);
      Routing(before.clean + last.clean, before.errors + last.errors)
  }

  /** The number of outcomes without an error reason. */
  function CleanCount(os: seq<RowOutcome>): nat {
    if os == [] then 0
    else CleanCount(os[..|os| - 1]) + (if os[|os| - 1].errors == [] then 1 else 0)
  }

  /** The clean file gets one row per outcome without an error reason and the
      error file one per outcome with one. */
  lemma {:induction false} RouteAllCounts(header: seq<string>, os: seq<RowOutcome>)
    ensures |RouteAll(header, os).clean| == CleanCount(os)
    ensures |RouteAll(header, os).errors| == |os| - CleanCount(os)
  {
    if os != [] {
      RouteAllCounts(header, os[..|os| - 1]);
    }
  }

  /** Routing a run is routing its two halves one after the other. */
  lemma {:induction false} RouteAllAppend(header: seq<string>, xs: seq<RowOutcome>, ys: seq<RowOutcome>)
    ensures RouteAll(header, xs + ys).clean == RouteAll(header, xs).clean + RouteAll(header, ys).clean
    ensures RouteAll(header, xs + ys).errors == RouteAll(header, xs).errors + RouteAll(header, ys).errors
  {
    if ys != [] {
      var zs := xs + ys;
      assert zs[..|zs| - 1] == xs + ys[..|ys| - 1];
      assert zs[|zs| - 1] == ys[|ys| - 1];
      RouteAllAppend(header, xs, ys[..|ys| - 1]);
    } else {
      assert xs + ys == xs;
    }
  }

  /** Where each outcome lands: an outcome without a reason is the clean
      file's row numbered by how many clean outcomes come before it, and
      any other outcome is the error file's row numbered by how many
      outcomes with reasons come before it. With RouteAllCounts this fixes
      both files completely, in input order. */
  lemma RouteAllPlacesRows(header: seq<string>, os: seq<RowOutcome>, k: nat)
    requires k < |os|
    ensures var r := RouteAll(header, os);
            var before := CleanCount(os[..k]);
            before <= k
            && (os[k].errors == [] ==> before < |r.clean| && r.clean[before] == Project(os[k].row, header))
            && (os[k].errors != [] ==> k - before < |r.errors|
                                       && r.errors[k - before] == Project(os[k].row, header) + [ErrorCell(os[k].errors)])
  {
    var pre := os[..k];
    var xs := pre + [os[k]];
    var rest := os[k + 1..];
    assert xs + rest == os;
    assert xs[..|xs| - 1] == pre && xs[|xs| - 1] == os[k];
    RouteAllAppend(header, xs, rest);
    RouteAllCounts(header, pre);
  }

  /** When every outcome is clean, the clean file holds exactly the rows read
      back in header order and the error file gets nothing. */
  lemma {:induction false} AllCleanRoutesAll(header: seq<string>, os: seq<RowOutcome>)
    requires forall k :: 0 <= k < |os| ==> os[k].errors == []
    ensures RouteAll(header, os).errors == []
    ensures RouteAll(header, os).clean == seq(|os|, k requires 0 <= k < |os| => Project(os[k].row, header))
  {
    if os != [] {
      AllCleanRoutesAll(header, os[..|os| - 1]);
    }
  }

  /** The error cell still lists every reason, in order, when no reason holds
      a ',' itself. */
  lemma ErrorCellLists(reasons: seq<string>)
    requires |reasons| > 0
    requires forall i, k :: 0 <= i < |reasons| && 0 <= k < |reasons[i]| ==> reasons[i][k] != ','
    ensures Split(ErrorCell(reasons), ',') == reasons
  {
    SplitJoin(reasons, ',');
  }

  /** The log lines of a run: every outcome's events in input order. */
  function AllEvents(os: seq<RowOutcome>): (r: seq<LogEvent>)
    ensures os == [] ==> r == []
  {
    if os == [] then [] else AllEvents(os[..|os| - 1]) + os[|os| - 1].events
  }

  /** Writing one more outcome to the files of a run extends them to the
      files of the longer run. */
  lemma WriteStep(header: seq<string>, renamed: seq<string>, done: seq<RowOutcome>, o: RowOutcome,
                  clean: seq<seq<string>>, errorRows: seq<seq<string>>, log: seq<LogEvent>)
    requires clean == [header] + RouteAll(renamed, done).clean
    requires errorRows == [header + ["error_desc"]] + RouteAll(renamed, done).errors
    requires log == [JobStarted] + AllEvents(done)
    ensures clean + RouteRow(renamed, o).clean == [header] + RouteAll(renamed, done + [o]).clean
    ensures errorRows + RouteRow(renamed, o).errors == [header + ["error_desc"]] + RouteAll(renamed, done + [o]).errors
    ensures log + o.events == [JobStarted] + AllEvents(done + [o])
  {
    assert (done + [o])[..|done|] == done;
  }

  /** The first k + 1 outcomes are the first k and then the k-th. */
  lemma PrefixStep(os: seq<RowOutcome>, k: nat)
    requires k < |os|
    ensures os[..k + 1] == os[..k] + [os[k]]
  {
  }

  /** The three files of a run: the clean file starts with the original
      header, the error file with the original header and "error_desc", and
      the log is bracketed by the start and finish markers. The rows are read
      back in the order of the renamed header. */
  function Publish(header: seq<string>, renamed: seq<string>, os: seq<RowOutcome>): (f: Files)
    ensures |f.clean| + |f.errors| == |os| + 2
    ensures |f.clean| > 0 && f.clean[0] == header
    ensures |f.errors| > 0 && f.errors[0] == header + ["error_desc"]
    ensures |f.log| >= 2 && f.log[0] == JobStarted && f.log[|f.log| - 1] == JobFinished
  {
    var r := RouteAll(renamed, os);
    Files([header] + r.clean, [header + ["error_desc"]] + r.errors, [JobStarted] + AllEvents(os) + [JobFinished])
  }

  /** The open output files of a run, written row by row. */
  class Outputs {
    var clean: seq<seq<string>>
    var errorRows: seq<seq<string>>
    var log: seq<LogEvent>

    /** Writes both header rows and the start marker. */
    constructor(header: seq<string>)
      ensures clean == [header] && errorRows == [header + ["error_desc"]] && log == [JobStarted]
    {
      clean := [header];
      errorRows := [header + ["error_desc"]];
      log := [JobStarted];
    }

    /** The files as they stand. */
    function Snapshot(): Files
      reads this
    {
      Files(clean, errorRows, log)
    }

    /** Logs a row's events and writes the row to the file its error list
        picks. */
    method Write(renamed: seq<string>, o: RowOutcome)
      modifies this
      ensures clean == old(clean) + RouteRow(renamed, o).clean
      ensures errorRows == old(errorRows) + RouteRow(renamed, o).errors
      ensures log == old(log) + o.events
    {
      log := log + o.events;
      var values := Project(o.row, renamed);
      if o.errors != [] {
        errorRows := errorRows + [values + [Join(",", o.errors)]];
      } else {
        clean := clean + [values];
      }
    }

    /** Writes the finish marker. */
    method Finish()
      modifies this
      ensures clean == old(clean) && errorRows == old(errorRows)
      ensures log == old(log) + [JobFinished]
    {
      log := log + [JobFinished];
    }
  }

  /** Writes a run's outcomes row by row: both header rows and the start
      marker, then each outcome to the file its error list picks, then the
      finish marker. */
  method WriteAll(header: seq<string>, renamed: seq<string>, os: seq<RowOutcome>) returns (out: Outputs)
    ensures fresh(out)
    ensures out.Snapshot() == Publish(header, renamed, os)
  {
    out := new Outputs(header);
    var k := 0;
    while k < |os|
      invariant 0 <= k <= |os|
      invariant out.clean == [header] + RouteAll(renamed, os[..k]).clean
      invariant out.errorRows == [header + ["error_desc"]] + RouteAll(renamed, os[..k]).errors
      invariant out.log == [JobStarted] + AllEvents(os[..k])
    {
      WriteStep(header, renamed, os[..k], os[k], out.clean, out.errorRows, out.log);
      out.Write(renamed, os[k]);
      PrefixStep(os, k);
      k := k + 1;
    }
    assert os[..k] == os;
    out.Finish();
  }
}
