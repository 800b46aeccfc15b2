/** The shapes both scripts share: the rules document, the renamed header,
    the row dictionary built by dict(zip(processed_header, row)), the values
    read back in header order, and what a field rule and a whole row produce. */
module Rows {
  import opened Wrappers
  import opened Audit
  import opened Text

  /** rules[field]['required'] for the four governed fields the scripts read. */
  datatype Rules = Rules(uspcid: bool, usclid: bool, emailAdd: bool, dob: bool)

  /** What one field rule decides: a new value to store in the row (None
      leaves the row alone), the error reasons it adds and the log events it
      writes. */
  datatype FieldVerdict = FieldVerdict(update: Option<string>, errors: seq<string>, events: seq<LogEvent>)

  /** What one row comes to: the row dictionary after the in-place rewrites,
      the error reasons in the order they were appended, and the log events
      in the order they were written. */
  datatype RowOutcome = RowOutcome(row: map<string, string>, errors: seq<string>, events: seq<LogEvent>)

  /** header_map of the +685 script. */
  const SmRenames: map<string, string> := map["Mobile_No" := "Mobile_no"]

  /** header_map of the +682 script. */
  const DataRenames: map<string, string> := map["Mobile_No" := "Mobile_no", "AC_NO" := "Acc_no"]

  /** dict.get(key, default). */
  function Get(m: map<string, string>, key: string, default: string): string {
    if key in m then m[key] else default
  }

  /** dict.get(key): None when the key is absent. */
  function Lookup(m: map<string, string>, key: string): Option<string> {
    if key in m then Some(m[key]) else None
  }

  /** row_data[key] = value when the rule gave a new value. */
  function Apply(m: map<string, string>, key: string, update: Option<string>): map<string, string> {
    if update.Some? then m[key := update.value] else m
  }

  /** Storing a value adds its key and changes nothing else; no value leaves
      the dictionary as it was. */
  lemma ApplyAt(m: map<string, string>, key: string, update: Option<string>, other: string)
    ensures other in Apply(m, key, update) <==> other in m || (update.Some? && other == key)
    ensures other in m && other != key ==> Apply(m, key, update)[other] == m[other]
    ensures update.Some? ==> Apply(m, key, update)[key] == update.value
  {
  }

  /** A column that is absent reads as the empty string, which strips to
      nothing. */
  lemma AbsentIsEmpty(row: map<string, string>, key: string)
    ensures key !in row ==> Strip(Get(row, key, "")) == []
  {
  }

  /** An error list built from parts is empty exactly when every part
      is. */
  lemma NoReasons(a: seq<string>, b: seq<string>, c: seq<string>, d: seq<string>)
    ensures a + b + c + d == [] <==> a == [] && b == [] && c == [] && d == []
  {
    assert |a + b + c + d| == |a| + |b| + |c| + |d|;
  }

  /** [header_map.get(h, h) for h in header]. */
  function RenameHeader(renames: map<string, string>, header: seq<string>): (r: seq<string>)
    ensures |r| == |header|
  {
    seq(|header|, k requires 0 <= k < |header| => Get(renames, header[k], header[k]))
  }

  /** Renaming is element-wise: a name the table does not know keeps its
      position and its spelling, a name it knows is replaced in place, and
      when no new name is itself renamed, no old name survives. */
  lemma RenameHeaderElementwise(renames: map<string, string>, header: seq<string>)
    requires forall h :: h in renames ==> renames[h] !in renames
    ensures forall k :: 0 <= k < |header| && header[k] !in renames ==> RenameHeader(renames, header)[k] == header[k]
    ensures forall k :: 0 <= k < |header| && header[k] in renames ==> RenameHeader(renames, header)[k] == renames[header[k]]
    ensures forall k :: 0 <= k < |header| ==> RenameHeader(renames, header)[k] !in renames
  {
  }

  /** Both scripts' tables rename into names they do not rename again, so
      renaming a second time changes nothing. */
  lemma RenameHeaderIdempotent(renames: map<string, string>, header: seq<string>)
    requires renames == SmRenames || renames == DataRenames
    ensures RenameHeader(renames, RenameHeader(renames, header)) == RenameHeader(renames, header)
  {
    RenameHeaderElementwise(renames, header);
  }

  function Min(a: nat, b: nat): nat {
    if a < b then a else b
  }

  /** Position k is the last position before n that holds header[k]. */
  ghost predicate LastOccurrence(header: seq<string>, k: nat, n: nat)
    requires k < n <= |header|
  {
    forall j :: k < j < n ==> header[j] != header[k]
  }

  /** dict(zip(header, values)): zip stops at the shorter list. */
  function ZipToMap(header: seq<string>, values: seq<string>): map<string, string> {
    ZipPrefix(header, values, Min(|header|, |values|))
  }

  /** The dictionary after the first n pairs, inserted in order, so that a
      name that occurs twice keeps the value of its last occurrence. */
  function ZipPrefix(header: seq<string>, values: seq<string>, n: nat): map<string, string>
    requires n <= |header| && n <= |values|
  {
    if n == 0 then map[] else ZipPrefix(header, values, n - 1)[header[n - 1] := values[n - 1]]
  }

  /** The keys of the first n pairs are the first n names. */
  lemma {:induction false} ZipPrefixKeys(header: seq<string>, values: seq<string>, n: nat)
    requires n <= |header| && n <= |values|
    ensures forall key :: key in ZipPrefix(header, values, n) <==> exists j :: 0 <= j < n && header[j] == key
  {
    if n > 0 {
      ZipPrefixKeys(header, values, n - 1);
    }
  }

  /** Each name is bound to the value beside its last occurrence. */
  lemma {:induction false} ZipPrefixLastWins(header: seq<string>, values: seq<string>, n: nat)
    requires n <= |header| && n <= |values|
    ensures forall k :: 0 <= k < n && LastOccurrence(header, k, n) ==>
              header[k] in ZipPrefix(header, values, n) && ZipPrefix(header, values, n)[header[k]] == values[k]
  {
    if n > 0 {
      ZipPrefixLastWins(header, values, n - 1);
      forall k | 0 <= k < n - 1 && LastOccurrence(header, k, n)
        ensures LastOccurrence(header, k, n - 1)
      {
      }
    }
  }

  /** dict(zip(processed_header, row)) for every data row, in order. */
  function RowDicts(renamed: seq<string>, rows: seq<seq<string>>): (r: seq<map<string, string>>)
    ensures |r| == |rows|
  {
    seq(|rows|, k requires 0 <= k < |rows| => ZipToMap(renamed, rows[k]))
  }

  /** [row_data.get(h, '') for h in processed_header]. */
  function Project(m: map<string, string>, header: seq<string>): (r: seq<string>)
    ensures |r| == |header|
  {
    seq(|header|, k requires 0 <= k < |header| => Get(m, header[k], ""))
  }

  predicate Distinct(header: seq<string>) {
    forall i, j :: 0 <= i < j < |header| ==> header[i] != header[j]
  }

  /** Reading an untouched row back in header order pads a short row with ''
      and cuts a long one to the header's length (when no column name occurs
      twice): a row never fails to be built. */
  lemma ProjectZip(header: seq<string>, values: seq<string>)
    requires Distinct(header)
    ensures forall k :: 0 <= k < |header| ==>
      Project(ZipToMap(header, values), header)[k] == if k < |values| then values[k] else ""
  {
    var n := Min(|header|, |values|);
    var m := ZipToMap(header, values);
    ZipPrefixKeys(header, values, n);
    ZipPrefixLastWins(header, values, n);
    forall k | 0 <= k < |header|
      ensures Project(m, header)[k] == if k < |values| then values[k] else ""
    {
      if k < n {
        assert LastOccurrence(header, k, n);
      } else {
        assert header[k] !in m;
      }
    }
  }
}
