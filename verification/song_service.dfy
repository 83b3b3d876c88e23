/** `SongService`: the song service's create, delete and read over the `songs`
    table, keyed by resource id. */
module SongService {
  import opened Wrappers
  import opened Numerals
  import opened BeanValidation
  import opened SongErrors
  import SongServiceClient

  /** A `songs` row: `SongEntity`, every column `NOT NULL`, the year an
      integer. */
  datatype Song = Song(resourceId: int, name: string, artist: string, album: string, year: int, duration: string)

  type SongTable = map<int, Song>

  const YearMessage := "Year must be between 1900 and 2099"
  const DurationMessage := "Duration must be in mm:ss format"

  /** Full match of `^[0-5]?\d:[0-5]\d$`: one or two minute digits, the first
      of two at most 5, then seconds 00 to 59. */
  predicate MatchesServiceDuration(s: string) {
    || (|s| == 4 && IsDigit(s[0]) && s[1] == ':' && '0' <= s[2] <= '5' && IsDigit(s[3]))
    || (|s| == 5 && '0' <= s[0] <= '5' && IsDigit(s[1]) && s[2] == ':' && '0' <= s[3] <= '5' && IsDigit(s[4]))
  }

  /** `validate`: the year range first, then the duration pattern. */
  function Validate(s: Song): (r: Option<SongException>)
    ensures (s.year < 1900 || s.year > 2099) ==> r == Some(IllegalArgument(YearMessage))
    ensures 1900 <= s.year <= 2099 && !MatchesServiceDuration(s.duration) ==> r == Some(IllegalArgument(DurationMessage))
    ensures r.None? <==> 1900 <= s.year <= 2099 && MatchesServiceDuration(s.duration)
  {
    if s.year < 1900 || s.year > 2099 then Some(IllegalArgument(YearMessage))
    else if !MatchesServiceDuration(s.duration) then Some(IllegalArgument(DurationMessage))
    else None
  }

  /** `createSong`: validate, then `save`. The id is assigned by the caller, so
      `save` merges: a row already under that id is overwritten. The song is
      returned as given. */
  function CreateSong(table: SongTable, s: Song): (r: (SongTable, Result<Song, SongException>))
    ensures Validate(s).Some? ==> r == (table, Failure(Validate(s).value))
    ensures Validate(s).None? ==> r.1 == Success(s)
    ensures Validate(s).None? ==> r.0.Keys == table.Keys + {s.resourceId} && r.0[s.resourceId] == s
    ensures forall id :: id in table && id != s.resourceId ==> id in r.0 && r.0[id] == table[id]
  {
    match Validate(s)
    case Some(e) => (table, Failure(e))
    case None => (table[s.resourceId := s], Success(s))
  }

  /** Requested ids that have a row, each once. */
  function Existing(table: SongTable, ids: seq<int>): (r: set<int>)
    ensures forall x :: x in r <==> x in ids && x in table
  {
    (set x | x in ids) * table.Keys
  }

  /** `deleteSongs`: find the requested rows, delete them if there are any,
      and report their ids, in the order `findAllById` returns them. */
  function DeleteSongs(table: SongTable, ids: seq<int>, order: seq<int>): (r: (SongTable, seq<int>))
    requires SongServiceClient.Enumerates(order, Existing(table, ids))
    ensures r.1 == order
    ensures r.0.Keys == table.Keys - (set x | x in ids)
    ensures forall id :: id in r.0 ==> r.0[id] == table[id]
    ensures |order| == 0 ==> r.0 == table
  {
    if |order| == 0 then
      assert forall x :: x in ids ==> x !in table by {
        forall x | x in ids ensures x !in table {
          assert x in table ==> x in Existing(table, ids);
        }
      }
      assert forall k :: k in table.Keys - (set x | x in ids) <==> k in table.Keys;
      (table, [])
    else
      (map id | id in table.Keys - Existing(table, ids) :: table[id], order)
  }

  function NotFoundMessage(id: int): string {
    "Song not found: " + JavaDecimal(id)
  }

  /** `getSong`. */
  function GetSong(table: SongTable, id: int): (r: Result<Song, SongException>)
    ensures r.Success? <==> id in table
    ensures r.Success? ==> r.value == table[id]
    ensures r.Failure? ==> r.error == NoSuchElement(NotFoundMessage(id))
  {
    if id in table then Success(table[id]) else Failure(NoSuchElement(NotFoundMessage(id)))
  }

  /** A created song reads back as given. */
  lemma CreateThenGet(table: SongTable, s: Song)
    requires Validate(s).None?
    ensures GetSong(CreateSong(table, s).0, s.resourceId) == Success(s)
  {
  }

  /** A deleted song is gone. */
  lemma DeleteThenGet(table: SongTable, ids: seq<int>, order: seq<int>, id: int)
    requires SongServiceClient.Enumerates(order, Existing(table, ids)) && id in ids
    ensures GetSong(DeleteSongs(table, ids, order).0, id).Failure?
  {
    assert id !in DeleteSongs(table, ids, order).0;
  }

  /** On five-character values the service's duration rule is the DTO's rule
      with minutes capped at 59. */
  lemma DurationRulesOnFiveCharacters(s: string)
    requires |s| == 5
    ensures MatchesServiceDuration(s) <==> MatchesTwoDigitMinutes(s) && s[0] <= '5'
  {
  }

  /** The two duration rules disagree both ways: "60:00" passes the DTO and
      fails the service, "5:30" passes the service and fails the DTO. */
  lemma DurationRulesDiffer()
    ensures MatchesTwoDigitMinutes("60:00") && !MatchesServiceDuration("60:00")
    ensures MatchesServiceDuration("5:30") && !MatchesTwoDigitMinutes("5:30")
  {
  }
}
