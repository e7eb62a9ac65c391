/**
 * The game library page: which endpoint it fetches for the current search
 * text and genre, the handlers that change those two, and which genre tag
 * is highlighted. `URLSearchParams` encoding of a value is passed in as
 * `encode`.
 */
module GameLibrary {
  import opened Text

  const GamesUrl := "http://localhost:3001/api/player/games"
  const SearchUrl := "http://localhost:3001/api/player/games/search"
  const FilterUrl := "http://localhost:3001/api/player/games/filter"

  /** The tag that stands for no genre filter. */
  const AllTag := "全部"

  const GenreTags := [AllTag, "动作", "角色扮演", "策略", "冒险", "模拟"]

  /** `URLSearchParams.toString()`: `key=value` pairs joined by `&`. */
  function QueryString(params: seq<(string, string)>, encode: string -> string): (q: string)
    ensures params == [] ==> q == ""
    ensures |params| == 1 ==> q == params[0].0 + "=" + encode(params[0].1)
  {
    if params == [] then ""
    else if |params| == 1 then params[0].0 + "=" + encode(params[0].1)
    else params[0].0 + "=" + encode(params[0].1) + "&" + QueryString(params[1..], encode)
  }

  /** A genre filter is in force: set, non-empty and not the all tag. */
  predicate GenreFilter(selectedGenre: Option<string>) {
    selectedGenre.Some? && selectedGenre.value != "" && selectedGenre.value != AllTag
  }

  /**
   * The URL of `fetchGames`: a non-empty search query selects the search
   * endpoint whatever the genre; else a genre filter selects the filter
   * endpoint; else the plain list, with no query string.
   */
  method FetchUrl(searchQuery: string, selectedGenre: Option<string>, encode: string -> string) returns (url: string)
    ensures searchQuery != "" ==> url == SearchUrl + "?" + "query=" + encode(searchQuery)
    ensures searchQuery == "" && GenreFilter(selectedGenre) ==> url == FilterUrl + "?" + "genre=" + encode(selectedGenre.value)
    ensures searchQuery == "" && !GenreFilter(selectedGenre) ==> url == GamesUrl
  {
    url := GamesUrl;
    var params: seq<(string, string)> := [];
    if searchQuery != "" {
      url := SearchUrl;
      params := params + [("query", searchQuery)];
    } else if GenreFilter(selectedGenre) {
      url := FilterUrl;
      params := params + [("genre", selectedGenre.value)];
    }
    var query := QueryString(params, encode);
    if query != "" {
      url := url + "?" + query;
    }
  }

  /** `selectedGenre === tag || (selectedGenre === null && tag === '全部')`. */
  predicate Highlighted(tag: string, selectedGenre: Option<string>) {
    selectedGenre == Some(tag) || (selectedGenre.None? && tag == AllTag)
  }

  /** The genre `handleGenreFilter(tag)` selects: none for the all tag, else the tag. */
  function GenreFor(tag: string): (g: Option<string>)
    ensures tag == AllTag <==> g.None?
    ensures g.Some? ==> g.value == tag
  {
    if tag == AllTag then None else Some(tag)
  }

  lemma GenreTagsDistinct()
    ensures forall i, j :: 0 <= i < j < |GenreTags| ==> GenreTags[i] != GenreTags[j]
  {
    assert GenreTags[0][0] == '全' && GenreTags[1][0] == '动' && GenreTags[2][0] == '角';
    assert GenreTags[3][0] == '策' && GenreTags[4][0] == '冒' && GenreTags[5][0] == '模';
  }

  /** After a click on one of the shown tags, exactly that tag is highlighted. */
  lemma ClickedTagAloneHighlighted(k: int)
    requires 0 <= k < |GenreTags|
    ensures forall i :: 0 <= i < |GenreTags| ==> (Highlighted(GenreTags[i], GenreFor(GenreTags[k])) <==> i == k)
  {
    GenreTagsDistinct();
  }

  /** The page's search text and genre selection. */
  class GameLibraryPage {
    var searchQuery: string
    var selectedGenre: Option<string>

    constructor()
      ensures searchQuery == "" && selectedGenre.None?
    {
      searchQuery := "";
      selectedGenre := None;
    }

    /** Typing into the search box. */
    method SetSearchQuery(text: string)
      modifies this
      ensures searchQuery == text && selectedGenre == old(selectedGenre)
    {
      searchQuery := text;
    }

    /** `handleSearch`: clears the genre and keeps the query. */
    method HandleSearch()
      modifies this
      ensures selectedGenre.None? && searchQuery == old(searchQuery)
    {
      selectedGenre := None;
    }

    /** `handleGenreFilter(tag)`: the genre for the tag, and the query cleared. */
    method HandleGenreFilter(tag: string)
      modifies this
      ensures selectedGenre == GenreFor(tag) && searchQuery == ""
    {
      selectedGenre := if tag == AllTag then None else Some(tag);
      searchQuery := "";
    }

    /** The URL the effect fetches for the current state. */
    method Fetch(encode: string -> string) returns (url: string)
      ensures searchQuery != "" ==> url == SearchUrl + "?" + "query=" + encode(searchQuery)
      ensures searchQuery == "" && GenreFilter(selectedGenre) ==> url == FilterUrl + "?" + "genre=" + encode(selectedGenre.value)
      ensures searchQuery == "" && !GenreFilter(selectedGenre) ==> url == GamesUrl
    {
      url := FetchUrl(searchQuery, selectedGenre, encode);
    }
  }

  /** After a genre click the page fetches the filter endpoint for that tag, or the plain list for the all tag. */
  lemma GenreClickFetches(tag: string)
    ensures var g := GenreFor(tag);
      (tag == AllTag || tag == "" ==> !GenreFilter(g)) &&
      (tag != AllTag && tag != "" ==> GenreFilter(g) && g.value == tag)
  {
  }
}
