/** `gameRepository`: read-only scans and the LIKE search over the games table. */
module MobileGameRepository {
  import opened Common
  import opened Sorting
  import opened MobileMappers
  import opened MobileStore

  function TitleKey(g: DbGame): Key { StrKey(g.title) }

  /** Rows ordered by title, each mapped with `mapGame`; shared by the scan and the search. */
  function GamesByTitle(rows: seq<DbGame>): (r: seq<Game>)
    ensures |r| == |rows|
    ensures multiset(MapSeq(r, GameRow)) == multiset(rows)
    ensures forall i, j :: 0 <= i < j < |r| ==> StrLe(r[i].title, r[j].title)
  {
    var sorted := SortBy(rows, TitleKey, false);
    assert |sorted| == |multiset(sorted)|;
    MappedGamesRoundTrip(sorted);
    MappedGamesOrdered(sorted);
    MapSeq(sorted, MapGame)
  }

  /** Mapping rows to games and back gives the rows. */
  lemma MappedGamesRoundTrip(s: seq<DbGame>)
    ensures MapSeq(MapSeq(s, MapGame), GameRow) == s
  {
    var r := MapSeq(s, MapGame);
    forall i | 0 <= i < |s| ensures MapSeq(r, GameRow)[i] == s[i] {
      GameRoundTrip(s[i], r[i]);
    }
  }

  /** Rows in title order map to games in title order. */
  lemma MappedGamesOrdered(s: seq<DbGame>)
    requires SortedBy(s, TitleKey, false)
    ensures var r := MapSeq(s, MapGame); forall i, j :: 0 <= i < j < |r| ==> StrLe(r[i].title, r[j].title)
  {
    var r := MapSeq(s, MapGame);
    forall i, j | 0 <= i < j < |r| ensures StrLe(r[i].title, r[j].title) {
      assert InOrder(TitleKey(s[i]), TitleKey(s[j]), false);
    }
  }

  /** `SELECT ... FROM games ORDER BY title ASC`. */
  function FetchGames(t: Tables): (r: seq<Game>)
    ensures |r| == |t.games|
    ensures multiset(MapSeq(r, GameRow)) == multiset(t.games)
    ensures forall i, j :: 0 <= i < j < |r| ==> StrLe(r[i].title, r[j].title)
  {
    GamesByTitle(t.games)
  }

  /** `SELECT ... FROM games WHERE id = ? LIMIT 1`. */
  function FetchGameById(t: Tables, id: int): (r: Option<Game>)
    ensures r.None? <==> !t.HasGame(id)
    ensures r.Some? ==> r.value.id == id && GameRow(r.value) in t.games
  {
    match t.GameWithId(id)
    case Some(row) => Some(MapGame(row))
    case None => None
  }

  /** SQLite's `s LIKE p` without an ESCAPE clause: `%` matches any run of characters, `_` any one
      character, and letters compare without regard to ASCII case only. */
  predicate Like(p: string, s: string)
    decreases |p| + |s|
  {
    if p == [] then s == []
    else if p[0] == '%' then Like(p[1..], s) || (s != [] && Like(p, s[1..]))
    else s != [] && (p[0] == '_' || LowerAscii(p[0]) == LowerAscii(s[0])) && Like(p[1..], s[1..])
  }

  predicate NoWildcards(q: string) {
    forall i :: 0 <= i < |q| ==> q[i] != '%' && q[i] != '_'
  }

  /** The pattern `searchGames` binds: the trimmed query between two `%`, nothing escaped. */
  function SearchPattern(q: string): string {
    "%" + q + "%"
  }

  predicate GameMatches(pattern: string, g: DbGame) {
    Like(pattern, g.title) || Like(pattern, g.platform) || Like(pattern, g.genre)
  }

  function MatchesPattern(pattern: string): DbGame -> bool {
    (g: DbGame) => GameMatches(pattern, g)
  }

  /** `WHERE title LIKE ? OR platform LIKE ? OR genre LIKE ? ORDER BY title ASC`. */
  function SearchGames(t: Tables, query: string): (r: seq<Game>)
    ensures |r| <= |t.games|
    ensures multiset(MapSeq(r, GameRow)) == multiset(Filter(t.games, MatchesPattern(SearchPattern(Trim(query)))))
    ensures forall i, j :: 0 <= i < j < |r| ==> StrLe(r[i].title, r[j].title)
  {
    GamesByTitle(Filter(t.games, MatchesPattern(SearchPattern(Trim(query)))))
  }

  /** A row is among `rows` exactly when its mapped game is among `GamesByTitle(rows)`. */
  lemma InGamesByTitle(rows: seq<DbGame>, row: DbGame)
    ensures row in rows <==> MapGame(row) in GamesByTitle(rows)
  {
    if row in rows {
      RowListedByTitle(rows, row);
    }
    if MapGame(row) in GamesByTitle(rows) {
      ListedRowStored(rows, row);
    }
  }

  lemma RowListedByTitle(rows: seq<DbGame>, row: DbGame)
    requires row in rows
    ensures MapGame(row) in GamesByTitle(rows)
  {
    MappedMember(GamesByTitle(rows), rows, row);
  }

  lemma ListedRowStored(rows: seq<DbGame>, row: DbGame)
    requires MapGame(row) in GamesByTitle(rows)
    ensures row in rows
  {
    MemberMapped(GamesByTitle(rows), rows, row);
  }

  /** A list of games whose rows are a permutation of `rows` holds the game of each row. */
  lemma MappedMember(r: seq<Game>, rows: seq<DbGame>, row: DbGame)
    requires multiset(MapSeq(r, GameRow)) == multiset(rows) && row in rows
    ensures MapGame(row) in r
  {
    var m := MapSeq(r, GameRow);
    assert row in multiset(rows);
    assert row in m;
    var k :| 0 <= k < |m| && m[k] == row;
    GameRoundTrip(row, r[k]);
    assert MapGame(row) == r[k];
  }

  /** ... and only those. */
  lemma MemberMapped(r: seq<Game>, rows: seq<DbGame>, row: DbGame)
    requires multiset(MapSeq(r, GameRow)) == multiset(rows) && MapGame(row) in r
    ensures row in rows
  {
    var m := MapSeq(r, GameRow);
    var k :| 0 <= k < |r| && r[k] == MapGame(row);
    GameRoundTrip(row, r[k]);
    assert m[k] == row;
    assert row in multiset(m);
    assert row in multiset(rows);
  }

  /** A game is found by the search exactly when its row is stored and matches the pattern. */
  lemma SearchMembership(t: Tables, query: string, row: DbGame)
    ensures MapGame(row) in SearchGames(t, query) <==>
            row in t.games && GameMatches(SearchPattern(Trim(query)), row)
  {
    InGamesByTitle(Filter(t.games, MatchesPattern(SearchPattern(Trim(query)))), row);
  }

  /** Every search result is also listed by `fetchGames`. */
  lemma SearchWithinFetch(t: Tables, query: string)
    ensures forall g :: g in SearchGames(t, query) ==> g in FetchGames(t)
  {
    forall g | g in SearchGames(t, query) ensures g in FetchGames(t) {
      GameRoundTrip(GameRow(g), g);
      SearchMembership(t, query, GameRow(g));
      InGamesByTitle(t.games, GameRow(g));
    }
  }

  lemma {:induction false} LikeAnything(s: string)
    ensures Like("%", s)
    decreases |s|
  {
    if s != [] { LikeAnything(s[1..]); }
  }

  lemma LikeDoublePercent(s: string)
    ensures Like("%%", s)
  {
    var p := "%%";
    assert p[0] == '%' && p[1..] == "%";
    LikeAnything(s);
  }

  lemma EmptyQueryPattern()
    ensures SearchPattern([]) == "%%"
  {
    assert SearchPattern([]) == ['%'] + [] + ['%'];
  }

  /** A blank query becomes `%%`, which every game matches: the search lists all games. */
  lemma BlankSearchListsAll(t: Tables, query: string)
    requires AllWhitespace(query)
    ensures SearchGames(t, query) == FetchGames(t)
  {
    TrimEmptyIffBlank(query);
    EmptyQueryPattern();
    var p := SearchPattern(Trim(query));
    forall i | 0 <= i < |t.games| ensures MatchesPattern(p)(t.games[i]) {
      LikeDoublePercent(t.games[i].title);
    }
    FilterAll(t.games, MatchesPattern(p));
  }

  lemma TrimUnderscore()
    ensures Trim("_") == "_"
  {
    assert TrimEnd("_") == "_";
    assert TrimStart("_") == "_";
  }

  /** `%` and `_` in the query are not escaped: `_` stands for any one character, so the query
      "_" matches every string that is not empty. */
  lemma {:induction false} UnderscoreIsWildcard(s: string)
    ensures Like(SearchPattern(Trim("_")), s) <==> s != []
  {
    TrimUnderscore();
    var p := "%_%";
    assert SearchPattern("_") == p;
    assert p[0] == '%' && p[1..] == "_%";
    var q := "_%";
    assert q[0] == '_' && q[1..] == "%";
    if s != [] {
      LikeAnything(s[1..]);
      assert Like(q, s);
    } else {
      assert !Like(q, s);
    }
  }

  predicate CaseFoldEq(a: string, b: string) {
    LowerAsciiString(a) == LowerAsciiString(b)
  }

  /** With no wildcard in `q`, `q%` matches the strings that start with `q`, ignoring ASCII case. */
  lemma {:induction false} LikeTrailingPercent(q: string, s: string)
    requires NoWildcards(q)
    ensures Like(q + "%", s) <==> |q| <= |s| && CaseFoldEq(q, s[..|q|])
    decreases |q|
  {
    if q == [] {
      LikeAnything(s);
      assert q + "%" == "%";
      assert s[..|q|] == [] && LowerAsciiString(q) == [] == LowerAsciiString(s[..|q|]);
    } else {
      assert (q + "%")[0] == q[0] && (q + "%")[1..] == q[1..] + "%";
      assert NoWildcards(q[1..]) by {
        forall i | 0 <= i < |q[1..]| ensures q[1..][i] != '%' && q[1..][i] != '_' { assert q[1..][i] == q[i + 1]; }
      }
      if s != [] {
        LikeTrailingPercent(q[1..], s[1..]);
        if |q| <= |s| {
          var a, b := LowerAsciiString(q), LowerAsciiString(s[..|q|]);
          assert s[..|q|][1..] == s[1..][..|q| - 1];
          assert a == [LowerAscii(q[0])] + LowerAsciiString(q[1..]);
          assert b == [LowerAscii(s[0])] + LowerAsciiString(s[1..][..|q| - 1]);
          if a == b { assert a[0] == b[0] && a[1..] == b[1..]; }
        }
      }
    }
  }

  /** A leading `%` lets the rest of the pattern match any suffix. */
  lemma {:induction false} LikeLeadingPercent(p: string, s: string)
    ensures Like("%" + p, s) <==> exists i :: 0 <= i <= |s| && Like(p, s[i..])
    decreases |s|
  {
    var pp := "%" + p;
    assert pp[1..] == p;
    assert s[0..] == s;
    if s != [] {
      LikeLeadingPercent(p, s[1..]);
      if exists i :: 0 <= i <= |s| && Like(p, s[i..]) {
        var i :| 0 <= i <= |s| && Like(p, s[i..]);
        if i > 0 { assert s[1..][i - 1..] == s[i..]; }
      }
      if exists i :: 0 <= i <= |s[1..]| && Like(p, s[1..][i..]) {
        var i :| 0 <= i <= |s[1..]| && Like(p, s[1..][i..]);
        assert s[1..][i..] == s[i + 1..];
      }
    }
  }

  /** Folding the case of a slice is slicing the folded string. */
  lemma LowerSlice(s: string, i: int, j: int)
    requires 0 <= i <= j <= |s|
    ensures LowerAsciiString(s[i..j]) == LowerAsciiString(s)[i..j]
  {
    var a, b := LowerAsciiString(s[i..j]), LowerAsciiString(s)[i..j];
    forall k | 0 <= k < j - i ensures a[k] == b[k] {
      assert s[i..j][k] == s[i + k];
    }
  }

  /** `q%` matches the suffix of `s` at `i` exactly when the folded `q` occurs in the folded `s` at `i`. */
  lemma LikeAtIffOccursAt(q: string, s: string, i: int)
    requires NoWildcards(q) && 0 <= i <= |s|
    ensures Like(q + "%", s[i..]) <==> OccursAt(LowerAsciiString(s), LowerAsciiString(q), i)
  {
    LikeTrailingPercent(q, s[i..]);
    if |q| <= |s| - i {
      assert s[i..][..|q|] == s[i..i + |q|];
      LowerSlice(s, i, i + |q|);
    }
  }

  /** With no wildcard in the trimmed query, the search pattern matches exactly the strings that
      contain the query, ignoring ASCII case. */
  lemma LikeIsCaseFoldedSubstring(q: string, s: string)
    requires NoWildcards(q)
    ensures Like("%" + q + "%", s) <==> Contains(LowerAsciiString(s), LowerAsciiString(q))
  {
    assert "%" + q + "%" == "%" + (q + "%");
    LikeLeadingPercent(q + "%", s);
    var ls, lq := LowerAsciiString(s), LowerAsciiString(q);
    if Like("%" + q + "%", s) {
      var i :| 0 <= i <= |s| && Like(q + "%", s[i..]);
      LikeAtIffOccursAt(q, s, i);
    }
    if Contains(ls, lq) {
      var i :| 0 <= i <= |ls| - |lq| && OccursAt(ls, lq, i);
      LikeAtIffOccursAt(q, s, i);
    }
  }

  /** For a query whose trimmed text has no wildcard, a game is found exactly when its title,
      platform or genre contains that text, ignoring ASCII case. */
  lemma SearchIsCaseFoldedSubstring(t: Tables, query: string, g: DbGame)
    requires NoWildcards(Trim(query)) && g in t.games
    ensures MapGame(g) in SearchGames(t, query) <==>
            var q := LowerAsciiString(Trim(query));
            Contains(LowerAsciiString(g.title), q) || Contains(LowerAsciiString(g.platform), q)
            || Contains(LowerAsciiString(g.genre), q)
  {
    var q := Trim(query);
    LikeIsCaseFoldedSubstring(q, g.title);
    LikeIsCaseFoldedSubstring(q, g.platform);
    LikeIsCaseFoldedSubstring(q, g.genre);
    assert SearchPattern(q) == "%" + q + "%";
    SearchMembership(t, query, g);
  }
}
