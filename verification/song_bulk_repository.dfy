/** `SongBulkRepositoryImpl.insertIgnoreConflictsById`: the bulk insert
    statement it builds, and what that statement does to the `songs` table. */
module SongBulkRepository {
  import opened Wrappers
  import opened JavaText
  import opened SongDto
  import SongService

  /** A JDBC parameter value. */
  datatype Param = PNull | PInt(n: int) | PText(s: string)

  datatype Statement = Statement(sql: string, params: seq<Param>)

  /** One row of placeholders, one per column. */
  const Group := "(?, ?, ?, ?, ?, ?)"

  /** The statement text around the VALUES list, kept in short pieces. */
  const SqlHead := "INSERT INTO songs " + "(id, name, artist, " + "album, year, " + "duration)\nVALUES "
  const SqlTail := "\nON CONFLICT " + "(id) DO NOTHING\n"

  /** Occurrences of `c` in `s`. */
  function Count(s: string, c: char): nat {
    multiset(s)[c]
  }

  /** The VALUES list for `n` songs: `n` copies of `group` separated by ", ". */
  function ValuesList(group: string, n: nat): string {
    if n == 0 then "" else if n == 1 then group else group + ", " + ValuesList(group, n - 1)
  }

  function TextParam(v: Option<string>): Param {
    if v.Some? then PText(v.value) else PNull
  }

  /** The six parameters of one song, in column order. */
  function SongParams(s: SongDto): (r: seq<Param>)
    ensures |r| == 6
  {
    [if s.id.Some? then PInt(s.id.value) else PNull, TextParam(s.name), TextParam(s.artist),
     TextParam(s.album), TextParam(s.year), TextParam(s.duration)]
  }

  /** The parameters of all songs, song by song. */
  function AllParams(songs: seq<SongDto>): (r: seq<Param>)
    ensures |r| == 6 * |songs|
    ensures forall i :: 0 <= i < |songs| ==> r[6 * i..6 * i + 6] == SongParams(songs[i])
  {
    if |songs| == 0 then []
    else
      var rest := AllParams(songs[1..]);
      var r := SongParams(songs[0]) + rest;
      assert forall i :: 1 <= i < |songs| ==> r[6 * i..6 * i + 6] == rest[6 * (i - 1)..6 * (i - 1) + 6];
      r
  }

  /** The statement for a collection of songs; none for a null or empty one. */
  function BuildInsert(songs: Option<seq<SongDto>>): (r: Option<Statement>)
    ensures r.None? <==> songs.None? || |songs.value| == 0
    ensures r.Some? ==> |r.value.params| == 6 * |songs.value|
    ensures r.Some? ==> StartsWith(r.value.sql, SqlHead) && EndsWith(r.value.sql, SqlTail)
  {
    if songs.None? || |songs.value| == 0 then None
    else
      var sql := SqlHead + ValuesList(Group, |songs.value|) + SqlTail;
      assert sql[..|SqlHead|] == SqlHead;
      assert sql[|sql| - |SqlTail|..] == SqlTail;
      Some(Statement(sql, AllParams(songs.value)))
  }

  lemma GroupPlaceholders()
    ensures Count(Group, '?') == 6
  {
  }

  lemma SeparatorHasNoPlaceholder()
    ensures Count(", ", '?') == 0
  {
  }

  lemma NoPlaceholderIn1() ensures '?' !in "INSERT INTO songs " {}
  lemma NoPlaceholderIn2() ensures '?' !in "(id, name, artist, " {}
  lemma NoPlaceholderIn3() ensures '?' !in "album, year, " {}
  lemma NoPlaceholderIn4() ensures '?' !in "duration)\nVALUES " {}
  lemma NoPlaceholderIn5() ensures '?' !in "\nON CONFLICT " {}
  lemma NoPlaceholderIn6() ensures '?' !in "(id) DO NOTHING\n" {}

  /** The fixed text of the statement holds no placeholder. */
  lemma FixedTextHasNoPlaceholder()
    ensures Count(SqlHead, '?') == 0 && Count(SqlTail, '?') == 0
  {
    NoPlaceholderIn1(); NoPlaceholderIn2(); NoPlaceholderIn3();
    NoPlaceholderIn4(); NoPlaceholderIn5(); NoPlaceholderIn6();
    assert '?' !in SqlHead;
    assert '?' !in SqlTail;
  }

  /** Six placeholders per group. */
  lemma {:induction false} PlaceholdersOfValues(group: string, n: nat)
    requires Count(group, '?') == 6
    ensures Count(ValuesList(group, n), '?') == 6 * n
  {
    if n > 1 {
      PlaceholdersOfValues(group, n - 1);
      SeparatorHasNoPlaceholder();
      CountOfJoin(group, ", ", ValuesList(group, n - 1), '?');
    }
  }

  /** The statement binds exactly as many parameters as it has placeholders. */
  lemma PlaceholdersMatchParams(songs: seq<SongDto>)
    requires |songs| > 0
    ensures var st := BuildInsert(Some(songs)).value; Count(st.sql, '?') == |st.params|
  {
    var st := BuildInsert(Some(songs)).value;
    assert st.sql == SqlHead + ValuesList(Group, |songs|) + SqlTail;
    FixedTextHasNoPlaceholder();
    GroupPlaceholders();
    PlaceholdersOfValues(Group, |songs|);
    CountBetween(SqlHead, ValuesList(Group, |songs|), SqlTail, '?');
  }

  lemma CountOfJoin(a: string, b: string, c: string, ch: char)
    ensures Count(a + b + c, ch) == Count(a, ch) + Count(b, ch) + Count(c, ch)
  {
    assert multiset(a + b + c) == multiset(a) + multiset(b) + multiset(c);
  }

  /** Text around a string that holds no `c` adds no `c`. */
  lemma CountBetween(head: string, middle: string, tail: string, c: char)
    requires Count(head, c) == 0 && Count(tail, c) == 0
    ensures Count(head + middle + tail, c) == Count(middle, c)
  {
    assert multiset(head + middle + tail) == multiset(head) + multiset(middle) + multiset(tail);
  }

  /** The ids of the songs that have one. */
  function IdSet(songs: seq<SongDto>): set<int> {
    set i | 0 <= i < |songs| && songs[i].id.Some? :: songs[i].id.value
  }

  lemma IdSetOfTail(songs: seq<SongDto>)
    requires |songs| > 0 && songs[0].id.Some?
    ensures IdSet(songs) == {songs[0].id.value} + IdSet(songs[1..])
  {
    forall x | x in IdSet(songs[1..])
      ensures x in IdSet(songs)
    {
      var i :| 0 <= i < |songs[1..]| && songs[1..][i].id.Some? && songs[1..][i].id.value == x;
      assert songs[i + 1] == songs[1..][i];
    }
    forall x | x in IdSet(songs)
      ensures x in {songs[0].id.value} + IdSet(songs[1..])
    {
      var i :| 0 <= i < |songs| && songs[i].id.Some? && songs[i].id.value == x;
      if i > 0 {
        assert songs[1..][i - 1] == songs[i];
      }
    }
  }

  /** `songs[i]` is the first song carrying its id. */
  predicate FirstWithId(songs: seq<SongDto>, i: nat)
    requires i < |songs|
  {
    forall j :: 0 <= j < i ==> songs[j].id != songs[i].id
  }

  /** The year text read into the integer `year` column; `readYear` is the
      database's conversion of the bound text, absent for a null year. */
  function YearRead(s: SongDto, readYear: string -> Option<int>): Option<int> {
    if s.year.Some? then readYear(s.year.value) else None
  }

  /** The `songs` row one song's parameters make. Every column of `SongEntity`
      is `NOT NULL`, so a null parameter makes none, and neither does a year
      text the database will not read as an integer. */
  function RowOf(s: SongDto, readYear: string -> Option<int>): (r: Option<SongService.Song>)
    ensures r.Some? <==> PNull !in SongParams(s) && YearRead(s, readYear).Some?
    ensures r.Some? ==>
      && SongParams(s)[..4] == [PInt(r.value.resourceId), PText(r.value.name), PText(r.value.artist), PText(r.value.album)]
      && SongParams(s)[5] == PText(r.value.duration)
      && YearRead(s, readYear) == Some(r.value.year)
  {
    if s.id.None? || s.name.None? || s.artist.None? || s.album.None? || s.year.None? || s.duration.None? then
      assert PNull in SongParams(s);
      None
    else
      match readYear(s.year.value)
      case None => None
      case Some(y) => Some(SongService.Song(s.id.value, s.name.value, s.artist.value, s.album.value, y, s.duration.value))
  }

  /** Every song of the statement makes a row. */
  predicate AllRows(songs: seq<SongDto>, readYear: string -> Option<int>) {
    forall i :: 0 <= i < |songs| ==> RowOf(songs[i], readYear).Some?
  }

  /** Executing the statement against the `songs` table (rows by id): each
      song whose id is not yet present, in the table or earlier in the
      statement, is inserted; the rest are skipped. A null parameter violates a
      `NOT NULL` column, and a year text the database cannot read violates the
      integer column; either fails the whole statement. */
  function InsertIgnoreConflicts(table: SongService.SongTable, songs: seq<SongDto>, readYear: string -> Option<int>)
    : (r: Option<SongService.SongTable>)
    ensures r.Some? <==>
      forall i :: 0 <= i < |songs| ==> PNull !in SongParams(songs[i]) && YearRead(songs[i], readYear).Some?
    ensures r.Some? ==> r.value.Keys == table.Keys + IdSet(songs)
    ensures r.Some? ==> forall k :: k in table ==> r.value[k] == table[k]
    ensures r.Some? ==>
      forall i :: 0 <= i < |songs| && songs[i].id.value !in table && FirstWithId(songs, i) ==>
        Some(r.value[songs[i].id.value]) == RowOf(songs[i], readYear)
    decreases |songs|
  {
    if |songs| == 0 then Some(table)
    else
      match RowOf(songs[0], readYear)
      case None => None
      case Some(row) =>
        var id := songs[0].id.value;
        var next := if id in table then table else table[id := row];
        match InsertIgnoreConflicts(next, songs[1..], readYear)
        case None =>
          assert forall i :: 1 <= i < |songs| ==> songs[i] == songs[1..][i - 1];
          None
        case Some(t) =>
          assert forall i :: 1 <= i < |songs| ==> songs[i] == songs[1..][i - 1];
          IdSetOfTail(songs);
          Some(t)
  }

  /** Running the same insert twice leaves the table as running it once. */
  lemma InsertIdempotent(table: SongService.SongTable, songs: seq<SongDto>, readYear: string -> Option<int>)
    requires InsertIgnoreConflicts(table, songs, readYear).Some?
    ensures InsertIgnoreConflicts(InsertIgnoreConflicts(table, songs, readYear).value, songs, readYear)
         == InsertIgnoreConflicts(table, songs, readYear)
  {
    var once := InsertIgnoreConflicts(table, songs, readYear).value;
    NothingNewIsNoOp(once, songs, readYear);
  }

  /** When every song makes a row and every id is already present the
      statement changes nothing. */
  lemma NothingNewIsNoOp(table: SongService.SongTable, songs: seq<SongDto>, readYear: string -> Option<int>)
    requires AllRows(songs, readYear)
    requires IdSet(songs) <= table.Keys
    ensures InsertIgnoreConflicts(table, songs, readYear) == Some(table)
  {
    var r := InsertIgnoreConflicts(table, songs, readYear).value;
    assert r.Keys == table.Keys;
    assert forall k :: k in r ==> r[k] == table[k];
  }
}
