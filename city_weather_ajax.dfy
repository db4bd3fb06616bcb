/**
 * `fetch_city_weather_ajax`: reads the `search` field, runs the city query,
 * looks up a temperature per result row and echoes either a table or a
 * "no results" paragraph, then ends the request with `wp_die()`. Also the two
 * `wp_ajax_*` hook registrations that route the action to it.
 */
module CityWeatherAjax {
  import opened Wrappers
  import opened Seqs
  import opened WpFormatting
  import opened CityQuery
  import opened WeatherClient
  import opened WeatherTable
  import CitySearch

  /** The cells of one result row: a NULL country prints as the empty string. */
  function RowCells(row: CityRow, temperature: TempResult): Cells {
    Cells(row.country.GetOr(""), row.cityName, TempText(temperature))
  }

  /** The cells of every result row, each with its own temperature lookup. */
  function TableCells(rows: seq<CityRow>, apiKey: Option<string>, get: Transport): (cs: seq<Cells>)
    ensures |cs| == |rows|
    ensures forall i :: 0 <= i < |rows| ==>
      cs[i] == RowCells(rows[i], FetchTemperatureForCity(apiKey, rows[i].cityName, get))
  {
    Map(rows, (row: CityRow) => RowCells(row, FetchTemperatureForCity(apiKey, row.cityName, get)))
  }

  /** The weather requests the handler makes, in order: one per row, or none without a key. */
  function Requests(rows: seq<CityRow>, apiKey: Option<string>): (urls: seq<string>)
    ensures WpFormatting.PhpEmpty(ApiKey(apiKey)) ==> urls == []
    ensures !WpFormatting.PhpEmpty(ApiKey(apiKey)) ==>
      |urls| == |rows| && forall i :: 0 <= i < |rows| ==> urls[i] == WeatherUrl(rows[i].cityName, ApiKey(apiKey))
  {
    if rows == [] then []
    else
      match WeatherRequest(apiKey, rows[0].cityName)
      case None => Requests(rows[1..], apiKey)
      case Some(url) => [url] + Requests(rows[1..], apiKey)
  }

  /**
   * `isset($_POST['search']) ? sanitize_text_field($_POST['search']) : ''`, for
   * the field as the browser sent it: WordPress has already passed `$_POST`
   * through `addslashes`, and nothing here calls `wp_unslash`.
   */
  function SearchTerm(postSearch: Option<string>): (r: string)
    ensures postSearch.None? ==> r == ""
    ensures Clean(r)
  {
    match postSearch
    case None => ""
    case Some(s) =>
      SanitizeTextClean(AddSlashes(s));
      SanitizeText(AddSlashes(s))
  }

  // ---------------------------------------------------------------------------
  // The handler
  // ---------------------------------------------------------------------------

  /**
   * `fetch_city_weather_ajax()`. Returns what it echoes and the weather URLs it
   * requests; `wp_die()` ends the request right after, so nothing follows.
   */
  method FetchCityWeatherAjax(postSearch: Option<string>, db: Db, apiKey: Option<string>, get: Transport)
    returns (output: string, requested: seq<string>)
    ensures var rows := GetCitiesWeatherData(db, SearchTerm(postSearch));
      output == ResponseHtml(TableCells(rows, apiKey, get)) && requested == Requests(rows, apiKey)
  {
    var search := SearchTerm(postSearch);
    var citiesData := GetCitiesWeatherData(db, search);
    output, requested := EchoResults(citiesData, apiKey, get);
  }

  /** The body of the handler after the query: the `if` that echoes the response. */
  method EchoResults(citiesData: seq<CityRow>, apiKey: Option<string>, get: Transport)
    returns (output: string, requested: seq<string>)
    ensures output == ResponseHtml(TableCells(citiesData, apiKey, get))
    ensures requested == Requests(citiesData, apiKey)
  {
    if citiesData != [] {
      output := TableHead;
      output, requested := EchoRows(output, citiesData, apiKey, get);
      output := output + TableFoot;
    } else {
      output := NoResults;
      requested := [];
    }
  }

  /** The `foreach`: one lookup and one row per city, appended to what was echoed before. */
  method EchoRows(head: string, citiesData: seq<CityRow>, apiKey: Option<string>, get: Transport)
    returns (output: string, requested: seq<string>)
    ensures output == head + Rows(Markup, TableCells(citiesData, apiKey, get))
    ensures requested == Requests(citiesData, apiKey)
  {
    output := head;
    requested := [];
    for i := 0 to |citiesData|
      invariant output == head + Rows(Markup, TableCells(citiesData[..i], apiKey, get))
      invariant requested == Requests(citiesData[..i], apiKey)
    {
      var city := citiesData[i];
      var request := WeatherRequest(apiKey, city.cityName);
      var temperature := FetchTemperatureForCity(apiKey, city.cityName, get);
      EchoStep(head, citiesData, apiKey, get, i, output, requested);
      if request.Some? {
        requested := requested + [request.value];
      }
      output := output + RowHtml(RowCells(city, temperature));
    }
    TakeAll(citiesData);
  }

  /** One turn of the `foreach` extends both the echoed rows and the requests by that city's. */
  lemma EchoStep(head: string, rows: seq<CityRow>, apiKey: Option<string>, get: Transport, i: nat,
                 output: string, requested: seq<string>)
    requires i < |rows|
    requires output == head + Rows(Markup, TableCells(rows[..i], apiKey, get))
    requires requested == Requests(rows[..i], apiKey)
    ensures output + RowHtml(RowCells(rows[i], FetchTemperatureForCity(apiKey, rows[i].cityName, get))) ==
      head + Rows(Markup, TableCells(rows[..i + 1], apiKey, get))
    ensures Requests(rows[..i + 1], apiKey) ==
      match WeatherRequest(apiKey, rows[i].cityName) case None => requested case Some(u) => requested + [u]
  {
    var c := RowCells(rows[i], FetchTemperatureForCity(apiKey, rows[i].cityName, get));
    var before := TableCells(rows[..i], apiKey, get);
    TakeNext(rows, i);
    TableCellsSnoc(rows[..i], rows[i], apiKey, get);
    RowsSnoc(Markup, before, c);
    AppendAssoc(head, Rows(Markup, before), Row(Markup, c));
    RequestsSnoc(rows[..i], rows[i], apiKey);
  }

  lemma TableCellsSnoc(rows: seq<CityRow>, row: CityRow, apiKey: Option<string>, get: Transport)
    ensures TableCells(rows + [row], apiKey, get) ==
      TableCells(rows, apiKey, get) + [RowCells(row, FetchTemperatureForCity(apiKey, row.cityName, get))]
  {
    var l := TableCells(rows + [row], apiKey, get);
    var r := TableCells(rows, apiKey, get) + [RowCells(row, FetchTemperatureForCity(apiKey, row.cityName, get))];
    assert |l| == |r|;
    forall k | 0 <= k < |l|
      ensures l[k] == r[k]
    {
      if k < |rows| {
        assert (rows + [row])[k] == rows[k];
      } else {
        assert (rows + [row])[k] == row;
      }
    }
  }

  lemma {:induction false} RequestsSnoc(rows: seq<CityRow>, row: CityRow, apiKey: Option<string>)
    ensures Requests(rows + [row], apiKey) ==
      Requests(rows, apiKey) + (match WeatherRequest(apiKey, row.cityName) case None => [] case Some(u) => [u])
  {
    if rows == [] {
      SingleTail(row);
    } else {
      SnocTail(rows, row);
      RequestsSnoc(rows[1..], row, apiKey);
    }
  }

  /** Without a key, every row shows `N/A°C` and no weather request is made. */
  lemma NoKeyEveryRowNotAvailable(rows: seq<CityRow>, apiKey: Option<string>, get: Transport)
    requires WpFormatting.PhpEmpty(ApiKey(apiKey))
    ensures forall c :: c in TableCells(rows, apiKey, get) ==> c.temperature == "N/A"
    ensures Requests(rows, apiKey) == []
  {
    var cs := TableCells(rows, apiKey, get);
    forall c | c in cs
      ensures c.temperature == "N/A"
    {
      var i :| 0 <= i < |cs| && cs[i] == c;
      assert FetchTemperatureForCity(apiKey, rows[i].cityName, get) == NotAvailable;
    }
  }

  /**
   * One row's lookup failing shows `Error` in that row only: a row for another
   * city shows the same cells whether or not that request failed.
   */
  lemma FailureStaysInItsRow(rows: seq<CityRow>, apiKey: Option<string>, get: Transport, other: Transport, i: nat, j: nat)
    requires !WpFormatting.PhpEmpty(ApiKey(apiKey))
    requires i < |rows| && j < |rows|
    requires get(WeatherUrl(rows[i].cityName, ApiKey(apiKey))).WpError?
    requires forall u :: u != WeatherUrl(rows[i].cityName, ApiKey(apiKey)) ==> get(u) == other(u)
    ensures TableCells(rows, apiKey, get)[i].temperature == "Error"
    ensures rows[j].cityName != rows[i].cityName ==> TableCells(rows, apiKey, get)[j] == TableCells(rows, apiKey, other)[j]
  {
    UrlInjectiveInCity(rows[i].cityName, rows[j].cityName, ApiKey(apiKey));
  }

  // ---------------------------------------------------------------------------
  // Routing: the two hook registrations
  // ---------------------------------------------------------------------------

  const Action := "fetch_city_weather"

  datatype Handler = FetchCityWeatherAjaxHandler

  /** `add_action('wp_ajax_fetch_city_weather', …)` and `add_action('wp_ajax_nopriv_fetch_city_weather', …)`. */
  function AjaxHooks(): map<string, Handler> {
    map["wp_ajax_" + Action := FetchCityWeatherAjaxHandler, "wp_ajax_nopriv_" + Action := FetchCityWeatherAjaxHandler]
  }

  /** The hook WordPress fires for an AJAX action: `wp_ajax_` when logged in, `wp_ajax_nopriv_` otherwise. */
  function HandlerFor(action: string, loggedIn: bool): Option<Handler> {
    var hook := (if loggedIn then "wp_ajax_" else "wp_ajax_nopriv_") + action;
    if hook in AjaxHooks() then Some(AjaxHooks()[hook]) else None
  }

  /** Logged-in and anonymous visitors reach the same handler. */
  lemma SameHandlerForEveryone(loggedIn: bool)
    ensures HandlerFor(Action, loggedIn) == Some(FetchCityWeatherAjaxHandler)
    ensures HandlerFor(Action, loggedIn) == HandlerFor(Action, !loggedIn)
  {
  }

  /**
   * A quote, double quote or backslash in what was typed stays in the term behind
   * a backslash, so only a title or country that itself holds a backslash can
   * match: typing `L'A` never finds "L'Aquila".
   */
  lemma QuotedSearchNeedsBackslash(db: Db, typed: string, i: nat)
    requires i < |typed| && NeedsSlash(typed[i])
    ensures '\\' in SearchTerm(Some(typed))
    ensures forall r :: r in GetCitiesWeatherData(db, SearchTerm(Some(typed))) ==>
      '\\' in r.cityName || (r.country.Some? && '\\' in r.country.value)
  {
    var t := SearchTerm(Some(typed));
    SlashedHasBackslash(typed, i);
    SanitizeKeepsVisible(AddSlashes(typed), '\\');
    forall r | r in GetCitiesWeatherData(db, t)
      ensures '\\' in r.cityName || (r.country.Some? && '\\' in r.country.value)
    {
      ResultSound(db, t, r);
      MatchNeedsBackslash(r.cityName, r.country, t);
    }
  }

  lemma MatchNeedsBackslash(title: string, country: Option<string>, t: string)
    requires '\\' in t && MatchesTerm(title, country, t)
    ensures '\\' in title || (country.Some? && '\\' in country.value)
  {
    var k :| 0 <= k < |t| && t[k] == '\\';
    if SqlLike.StartsWithCI(title, t) {
      assert SqlLike.Fold(title[k]) == SqlLike.Fold(t[k]);
    } else {
      assert SqlLike.Fold(country.value[k]) == SqlLike.Fold(t[k]);
    }
  }

  /** The action the search page posts is the one both hooks serve. */
  lemma PageActionIsServed(loggedIn: bool)
    ensures HandlerFor(CitySearch.Action, loggedIn) == Some(FetchCityWeatherAjaxHandler)
  {
    SameHandlerForEveryone(loggedIn);
  }

  /** A missing `search` field searches for "", which adds no condition. */
  lemma MissingSearchIsEmpty(db: Db)
    ensures SearchTerm(None) == ""
    ensures GetCitiesWeatherData(db, SearchTerm(None)) == GetCitiesWeatherData(db, "")
  {
  }
}
