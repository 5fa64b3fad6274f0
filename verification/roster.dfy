/**
 * `loadMembersFromCSV` (the same in both programs): the channel-member
 * roster, read from a CSV export whose first row is a header and whose
 * second column holds each member's channel URL. A comment author is a
 * member when the URL built from their channel id is in the roster.
 */
module Roster {
  import opened Wrappers

  /** What opening, inspecting and parsing the CSV file produced. */
  datatype CsvFile =
    | NotFound
    | OpenFailed(message: string)
    | StatFailed(message: string)
    | ReadFailed(message: string)
    | Records(records: seq<seq<string>>)

  /** How loading ended: the roster, an error returned to the caller, or a run-time panic that ends the program. */
  datatype Load = Loaded(members: set<string>) | Error(message: string) | Panic(message: string)

  /** The members export lists channels by URL, so lookups prepend this. */
  const ChannelUrlPrefix: string := "https://www.youtube.com/channel/"

  const OpenError: string := "erro ao abrir o arquivo de membros: "
  const StatError: string := "erro ao obter informações do arquivo de membros: "
  const ReadError: string := "erro ao ler o arquivo de membros: "

  /** The run-time error Go raises when `record[1]` is read from a one-field record. */
  const IndexPanic: string := "runtime error: index out of range [1] with length 1"

  /** Go's `encoding/csv` reader, as configured, rejects files whose records differ in field count. */
  predicate Rectangular(records: seq<seq<string>>) {
    forall k :: 0 <= k < |records| ==> |records[k]| == |records[0]|
  }

  /** The channel URLs a roster should hold: column 1 of every row after the header that has that column. */
  function MemberUrls(records: seq<seq<string>>): set<string> {
    set k | 1 <= k < |records| && |records[k]| > 1 :: records[k][1]
  }

  /**
   * The projection loop as written: a row passes the `len(record) > 0` guard
   * and is then indexed at 1, so a row with exactly one field panics.
   */
  function ProjectAsWritten(rows: seq<seq<string>>): (r: Result<set<string>, string>)
    ensures r.Failure? <==> exists k :: 0 <= k < |rows| && |rows[k]| == 1
    ensures r.Failure? ==> r.error == IndexPanic
    ensures r.Success? ==> forall id :: id in r.value <==> exists k :: 0 <= k < |rows| && |rows[k]| > 1 && rows[k][1] == id
  {
    if |rows| == 0 then Success({})
    else
      var rest := ProjectAsWritten(rows[1..]);
      assert forall k :: 1 <= k < |rows| ==> rows[k] == rows[1..][k - 1];
      if |rows[0]| == 0 then rest
      else if |rows[0]| == 1 then Failure(IndexPanic)
      else if rest.Failure? then rest
      else Success({rows[0][1]} + rest.value)
  }

  /** The projection with the guard the indexing needs: rows without a second field are skipped. */
  function Project(rows: seq<seq<string>>): (r: set<string>)
    ensures forall id :: id in r <==> exists k :: 0 <= k < |rows| && |rows[k]| > 1 && rows[k][1] == id
  {
    if |rows| == 0 then {}
    else
      var rest := Project(rows[1..]);
      assert forall k :: 1 <= k < |rows| ==> rows[k] == rows[1..][k - 1];
      if |rows[0]| > 1 then {rows[0][1]} + rest else rest
  }

  /** `loadMembersFromCSV` as written. A missing file gives an empty roster, not an error. */
  function LoadMembersAsWritten(file: CsvFile): (r: Load)
    ensures file.NotFound? ==> r == Loaded({})
    ensures file.Records? && |file.records| <= 1 ==> r == Loaded({})
  {
    match file
    case NotFound => Loaded({})
    case OpenFailed(m) => Error(OpenError + m)
    case StatFailed(m) => Error(StatError + m)
    case ReadFailed(m) => Error(ReadError + m)
    case Records(rs) =>
      if |rs| > 1 then
        match ProjectAsWritten(rs[1..])
        case Success(s) => Loaded(s)
        case Failure(e) => Panic(e)
      else Loaded({})
  }

  /** `loadMembersFromCSV` with the corrected guard. */
  function LoadMembers(file: CsvFile): (r: Load)
    ensures !r.Panic?
    ensures file.Records? ==> r == Loaded(MemberUrls(file.records))
    ensures file.NotFound? ==> r == Loaded({})
    ensures r.Error? <==> file.OpenFailed? || file.StatFailed? || file.ReadFailed?
  {
    match file
    case NotFound => Loaded({})
    case OpenFailed(m) => Error(OpenError + m)
    case StatFailed(m) => Error(StatError + m)
    case ReadFailed(m) => Error(ReadError + m)
    case Records(rs) =>
      if |rs| > 1 then
        var s := Project(rs[1..]);
        assert forall k :: 1 <= k < |rs| ==> rs[k] == rs[1..][k - 1];
        assert s == MemberUrls(rs) by {
          forall id ensures id in s <==> id in MemberUrls(rs) {
            if id in s {
              var k :| 0 <= k < |rs[1..]| && |rs[1..][k]| > 1 && rs[1..][k][1] == id;
              assert rs[k + 1] == rs[1..][k];
            }
          }
        }
        Loaded(s)
      else Loaded({})
  }

  /** `membersMap[ChannelUrlPrefix + id]`: a missing key reads as false. */
  predicate IsMember(members: set<string>, channelId: string) {
    ChannelUrlPrefix + channelId in members
  }

  /**
   * The code as written panics exactly when some row after the header has a
   * single field; otherwise it loads the same roster as the corrected code.
   */
  lemma AsWrittenPanicsOnlyOnOneFieldRows(file: CsvFile)
    ensures LoadMembersAsWritten(file).Panic? <==>
              file.Records? && exists k :: 1 <= k < |file.records| && |file.records[k]| == 1
    ensures !LoadMembersAsWritten(file).Panic? ==> LoadMembersAsWritten(file) == LoadMembers(file)
  {
    if file.Records? && |file.records| > 1 {
      var rs := file.records;
      assert forall k :: 1 <= k < |rs| ==> rs[k] == rs[1..][k - 1];
      if exists k :: 1 <= k < |rs| && |rs[k]| == 1 {
        var k :| 1 <= k < |rs| && |rs[k]| == 1;
        assert |rs[1..][k - 1]| == 1;
      }
      if ProjectAsWritten(rs[1..]).Success? {
        var s := ProjectAsWritten(rs[1..]).value;
        forall id ensures id in s <==> id in Project(rs[1..]) {
        }
      }
    }
  }

  /** A well-formed export with at least two columns never reaches the panic. */
  lemma TwoColumnExportLoads(records: seq<seq<string>>)
    requires |records| > 0 && Rectangular(records) && |records[0]| >= 2
    ensures LoadMembersAsWritten(Records(records)) == Loaded(MemberUrls(records))
  {
    AsWrittenPanicsOnlyOnOneFieldRows(Records(records));
  }

  /** A one-column export, header plus one member, makes the code as written panic. */
  lemma OneColumnExportPanics()
    ensures Rectangular([["Channel"], ["abc"]])
    ensures LoadMembersAsWritten(Records([["Channel"], ["abc"]])) == Panic(IndexPanic)
  {
    AsWrittenPanicsOnlyOnOneFieldRows(Records([["Channel"], ["abc"]]));
    assert |[["Channel"], ["abc"]][1]| == 1;
  }

  /** An author is recognised as a member exactly when a row after the header lists their channel URL in column 1. */
  lemma MemberIffListed(records: seq<seq<string>>, channelId: string)
    ensures LoadMembers(Records(records)).Loaded?
    ensures IsMember(LoadMembers(Records(records)).members, channelId) <==>
              exists k :: 1 <= k < |records| && |records[k]| > 1 && records[k][1] == ChannelUrlPrefix + channelId
  {
  }
}
