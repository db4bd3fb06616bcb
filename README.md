# Cities weather: a Dafny model

This project models the "cities weather" feature of a Storefront-based
WordPress theme, and proves properties of the model.

On the server, the feature has these parts:

- `get_cities_weather_data` looks up published `cities` posts with their coordinates and `country` terms. The lookup is a SQL query with inner and left joins and an optional prefix search.
- `fetch_city_weather_ajax` answers the `fetch_city_weather` AJAX action. It echoes either a "no results" paragraph or a table with one row per city, and each row holds a temperature from `fetch_temperature_for_city`.
- The `City_Weather_Widget` shows one saved city's temperature through its own `fetch_weather_data`, and `update` sanitizes the saved name.

In the browser, `city-weather.js` wires a debounced `keyup` handler to the search box. The handler posts the box's value, and a successful answer replaces the table.

The Dafny modules follow that structure:

| module | file | what it covers |
|---|---|---|
| `Wrappers` | wrappers.dfy | `Option`: PHP `null`, undefined constants, missing keys, SQL NULL |
| `Seqs` | seqs.dfy | filter, map and flat-map (the nested-loop join), plus small sequence facts |
| `WpFormatting` | wp_formatting.dfy | PHP `empty()`, `esc_html`, `sanitize_text_field`, `addslashes` and `stripslashes` |
| `SqlLike` | sql_like.dfy | `esc_like`, and how the database reads and matches a LIKE pattern |
| `CityQuery` | city_query.dfy | the tables and `get_cities_weather_data` as a join over them |
| `WeatherClient` | weather_client.dfy | the request URL, `fetch_temperature_for_city`, `fetch_weather_data` |
| `WeatherTable` | weather_table.dfy | the exact markup the handler echoes, and a reader for it |
| `CityWeatherAjax` | city_weather_ajax.dfy | the handler: a method whose `foreach` is a loop, plus the two hooks |
| `CityWeatherWidget` | city_weather_widget.dfy | `widget()` as an echoing method, and `update()` |
| `Debounce` | debounce.dfy | `debounce`: a pure schedule, and a class `Debouncer` with the `timeout` field |
| `CitySearch` | city_search.dfy | the page: a pure `Page`, and a class `CitySearchPage` that holds a `Debouncer` |

Inputs the code reads from its environment are parameters of the model:

- the database (`Db`);
- the `OPENWEATHER_API_KEY` constant (`Option<string>`; `None` means undefined);
- `wp_remote_get`, as a function from URL to `Response` (a `WP_Error`, or a status code with a decoded body);
- the `search` field as the browser sent it, before WordPress adds slashes to `$_POST`;
- the widget's `$args` and `$instance`;
- the clock, as a millisecond count advanced one tick at a time.

### Behaviour of the code worth knowing

The model follows the code in each case:

- **A search term "0" adds no condition.** The code tests the term with PHP `empty()`, so "0" returns every city (`CityQuery.EmptyTermAddsNoCondition`). In the same way, an API key "0" counts as missing, and a widget city "0" shows "City not specified".
- **The search term keeps WordPress's added slashes.** WordPress passes `$_POST` through `addslashes`, and the handler never calls `wp_unslash`. A typed quote, double quote or backslash therefore reaches the LIKE pattern behind a backslash, and only titles or countries that hold a backslash can match it: typing `L'A` never finds "L'Aquila" (`CityWeatherAjax.QuotedSearchNeedsBackslash`). This is stated for the whitespace-only sanitizer of this model (see `WpFormatting.SanitizeText` under "Left out"); the real `sanitize_text_field` also strips tags, so a typed `<b'>` becomes "" and returns every city.
- **The status code is never looked at.** A 404 or 500 whose body lacks `main.temp` shows `N/A`; only a transport error shows `Error` (`WeatherClient.StatusIgnored`).
- **The city name goes into the URL verbatim.** Some distinct (city, key) pairs therefore produce the same URL (`WeatherClient.UrlAmbiguousWithoutEncoding`).
- **The first request after load is sent 400 ms after load.** The on-load `trigger("keyup")` goes through the debounce like any other keyup (`CitySearch.FirstRequestAtWait`).
- **The delay is 400 ms.** That is the value passed to `debounce`; the comment beside the call says 300 ms (`CitySearch.Wait`).
- **Responses carry no sequence number.** A late answer to an older search overwrites a newer one (`CitySearch.StaleResponseWins`).
- **Lookups run one per row, in row order.** There is no cache, so two rows for the same city make two requests (`CityWeatherAjax.Requests`).

## Model

| member | source | states |
|---|---|---|
| WpFormatting.PhpEmpty | storefront/functions.php:110 | PHP `empty()` on a string: true for "" and "0"; `CityQuery.EmptyTermAddsNoCondition`, `WeatherClient.NoKeyNoRequest` and `CityWeatherWidget.NotSpecifiedIff` state what that means for the term, the key and the widget's city |
| WpFormatting.EscHtml | storefront/functions.php:231-235 | the escaped text contains no `<`, `>`, `"` or `'` that could open markup or end an attribute, and is at least as long as the input |

| WpFormatting.UnescapeEscHtml | storefront/functions.php:231-235 | escaping loses nothing: decoding `esc_html`'s output gives back the original text |
| WpFormatting.EscHtmlInjective | storefront/functions.php:231-235 | two texts escape alike only if they are equal |
| WpFormatting.EscHtmlPlain | storefront/functions.php:231-235 | text with no special character passes through `esc_html` unchanged |
| WpFormatting.SanitizeTextClean | storefront/functions.php:216 | what `sanitize_text_field` returns has no tab or line break, no two spaces in a row, and no whitespace at either end |
| WpFormatting.SanitizeText | storefront/functions.php:216 | `sanitize_text_field` as whitespace collapsing then trimming; its meaning is stated by `SanitizeTextClean`, `SanitizeTextOfClean`, `SanitizeTextIdempotent` and `SanitizeKeepsVisible` |
| WpFormatting.SanitizeTextOfClean | storefront/functions.php:216 | text that is already clean passes through unchanged |
| WpFormatting.SanitizeTextIdempotent | storefront/functions.php:216 | sanitizing twice is the same as sanitizing once |
| WpFormatting.SanitizeKeepsVisible | storefront/functions.php:216 | `sanitize_text_field` keeps every character that is neither whitespace nor trimmed |
| WpFormatting.StripAddSlashes | storefront/functions.php:216 | `wp_unslash` would undo WordPress's slashing of `$_POST` exactly |
| WpFormatting.AddSlashes | storefront/functions.php:216 | WordPress's `addslashes` on `$_POST`: at least as long as its input and at most twice as long; `StripAddSlashes` and `SlashedHasBackslash` state what it does |
| WpFormatting.SlashedHasBackslash | storefront/functions.php:216 | a quote, double quote, backslash or NUL leaves a backslash in the slashed value |
| SqlLike.EscLike | storefront/functions.php:197-198 | `esc_like` at least keeps, and at most doubles, the length of the term |
| SqlLike.ParseEscLike | storefront/functions.php:197-198 | the database reads every character of an escaped term as a literal, including `%`, `_` and `\`, whatever follows |
| SqlLike.LikePrefixPattern | storefront/functions.php:195-198 | `s LIKE esc_like(term) . '%'` holds exactly when `s` starts with `term`, ignoring case |
| SqlLike.PrefixPattern | storefront/functions.php:197-198 | the bound pattern `esc_like($search) . '%'`: it matches its own term, and `LikePrefixPattern` states that it matches exactly the values that start with the term |
| SqlLike.UnescapedPercentMatchesAll | storefront/functions.php:197 | without the escaping, the term `%` would give a pattern that every value matches |
| CityQuery.LeftJoin | storefront/functions.php:205-207 | a LEFT JOIN yields every match in order, or one NULL row when nothing matches |
| CityQuery.SearchCondition | storefront/functions.php:195-198 | there is no extra condition exactly when the term is PHP-empty; otherwise the term itself matches its own pattern |
| CityQuery.Where | storefront/functions.php:196-209 | the WHERE clause on one joined row; `WhereMeaning` states it as type and status plus a prefix match on the title or a non-NULL country |
| CityQuery.Select | storefront/functions.php:201 | the selected columns of a joined row, with `t.name` NULL for a NULL term; `ResultSound` states where each column comes from |
| CityQuery.WhereMeaning | storefront/functions.php:196-209 | a joined row passes WHERE exactly when it is a published `cities` post and the term is empty, or its title or country starts with the term |
| CityQuery.NullCountryNeverMatches | storefront/functions.php:196 | for a row with a NULL country, a non-empty term can only match the title |
| CityQuery.EmptyTermAddsNoCondition | storefront/functions.php:195-198 | the terms "" and "0" give the same result as no term |
| CityQuery.PostJoinsSound | storefront/functions.php:201-207 | every joined row is built from the post, a latitude row and a longitude row of that post, and one of its term slots |
| CityQuery.PostJoins | storefront/functions.php:203-207 | the joined rows of one post; `PostJoinsSound`, `PostJoinsComplete` and `PostJoinsCount` state exactly which rows and how many |
| CityQuery.TermOptions | storefront/functions.php:205-207 | the LEFT-JOINed term slots of a post; `NoRelationshipsOneNullCountry` and `OneRowPerRelationship` state what they are |
| CityQuery.PostJoinsComplete | storefront/functions.php:201-207 | every combination of latitude row, longitude row and term slot of a post appears among its joined rows |
| CityQuery.ResultSound | storefront/functions.php:193-211 | every result row names a published `cities` post that has both coordinate meta rows; its country is the name of one of that post's term slots, or NULL; and its title or country matches the term |
| CityQuery.GetCitiesWeatherData | storefront/functions.php:193-212 | the query's result rows; `ResultSound` and `ResultComplete` state together which rows these are, and `WhereMeaning` states the condition they meet |
| CityQuery.ResultComplete | storefront/functions.php:193-211 | every such combination that matches the term appears in the result |
| CityQuery.MissingCoordinateNeverReturned | storefront/functions.php:203-204 | a post lacking the latitude or the longitude meta row is never returned, whatever the term |
| CityQuery.NoRelationshipsOneNullCountry | storefront/functions.php:205-207 | a post without term relationships gets exactly one term slot, and it is NULL |
| CityQuery.TermsViaKeyed | storefront/functions.php:206-207 | with unique table keys, one relationship leads to exactly one term slot: its `country` term, or NULL for any other taxonomy |
| CityQuery.OneRowPerRelationship | storefront/functions.php:205-207 | with unique table keys, a post has one term slot per relationship, in order; non-country relationships give NULL |
| CityQuery.PostJoinsCount | storefront/functions.php:203-207 | a post yields (latitude rows) x (longitude rows) x (term slots) joined rows |
| CityQuery.EmptyTermKeepsAllJoins | storefront/functions.php:195-209 | for an empty term, a published city keeps every one of its joined rows |
| CityQuery.LoneCityOneRow | storefront/functions.php:201-211 | a city with one row per coordinate and no relationships yields exactly one row, with a NULL country, when its title meets the term, and no row otherwise |
| WeatherClient.WeatherRequest | storefront/functions.php:250-253 | no request is made exactly when the key is undefined or PHP-empty; otherwise the fixed URL with the city and key is requested |
| WeatherClient.ApiKey | storefront/functions.php:85 | the key as `defined(...) ? OPENWEATHER_API_KEY : ''`; `WeatherRequest` states that no request is made when it is PHP-empty |
| WeatherClient.WeatherUrl | storefront/functions.php:253 | the request URL, built without URL-encoding; `UrlCarriesCityVerbatim`, `UrlInjectiveInCity` and `UrlAmbiguousWithoutEncoding` state its layout |
| WeatherClient.FetchTemperatureForCity | storefront/functions.php:249-258 | the result is `N/A` when there is no key; `Error` exactly on a transport error; `main.temp` exactly when the body has it; `N/A` otherwise |
| WeatherClient.FetchWeatherData | storefront/functions.php:83-106 | the result is `null` exactly when there is no key, the transport fails, or the body decodes to `null`; otherwise it is the decoded body of the response |
| WeatherClient.NoKeyNoRequest | storefront/functions.php:250-251 | without a key, both lookups give their sentinel whatever the transport would have answered |
| WeatherClient.StatusIgnored | storefront/functions.php:254-257 | the status code plays no part, and a body without `main.temp` gives `N/A` |
| WeatherClient.TableAndWidgetAgree | storefront/functions.php:113-117 | the table's lookup gives temperature `t` exactly when the widget's lookup gives an object whose `main.temp` is `t` |
| WeatherClient.UrlCarriesCityVerbatim | storefront/functions.php:253 | the URL is the OpenWeather `/data/2.5/weather` endpoint, then `?q=` and the city unchanged, then `&units=metric&appid=` and the key |
| WeatherClient.UrlInjectiveInCity | storefront/functions.php:253 | for one key, different cities give different URLs |
| WeatherClient.UrlAmbiguousWithoutEncoding | storefront/functions.php:253 | two different (city, key) pairs can give the same URL |
| WeatherTable.MarkupDelimited | storefront/functions.php:220-238 | the echoed markup keeps every cell text followed by a tag, and a row distinguishable from the end of the table |
| WeatherTable.RowsSnoc | storefront/functions.php:229-236 | appending one row's markup extends the rows by that row |
| WeatherTable.ParseRowsOf | storefront/functions.php:229-238 | for any such layout, reading the rows back gives exactly the cells they were built from, in order |
| WeatherTable.ParseResponseHtml | storefront/functions.php:219-241 | the response encodes exactly its rows, in order, with nothing added or lost; it is the "no results" paragraph exactly when there are no rows |
| WeatherTable.ResponseHtml | storefront/functions.php:219-241 | what the handler echoes for a list of rows; `ParseResponseHtml` states that it decodes back to exactly those rows and is the no-results paragraph exactly when there are none |
| WeatherTable.Row | storefront/functions.php:231-235 | one `<tr>` in a given layout; `ParseRowOf` states that the row reader recovers its cells |
| WeatherTable.RowHtml | storefront/functions.php:231-235 | one `<tr>` in the handler's literal markup; `RowCellsEscaped` states its escaped cells |
| WeatherTable.RowCellsEscaped | storefront/functions.php:231-235 | each row holds the escaped country, city and temperature, the last followed by `°C`, and none of them can contain markup |
| CityWeatherAjax.TableCells | storefront/functions.php:229-235 | one row of cells per result row, in order, each with that row's own temperature lookup and a NULL country printed as "" |
| CityWeatherAjax.RowCells | storefront/functions.php:232-234 | the three printed cells of a row, with a NULL country printed as ""; `TableCells` states them for every row |
| CityWeatherAjax.Requests | storefront/functions.php:229-230 | the weather requests are none without a key, otherwise one per result row, in order, for that row's city |
| CityWeatherAjax.FetchCityWeatherAjax | storefront/functions.php:215-244 | the handler echoes exactly the rendering of its query's rows and makes exactly those requests; `wp_die()` ends the output |
| CityWeatherAjax.EchoResults | storefront/functions.php:219-241 | the `if`/`foreach` echoes the table head, one row per city with its lookup, and the foot, or the "no results" paragraph |
| CityWeatherAjax.EchoRows | storefront/functions.php:229-235 | the `foreach` appends to what was echoed one row per city, in order, made from that city's own lookup, and makes exactly the requests of those lookups |
| CityWeatherAjax.EchoStep | storefront/functions.php:229-235 | one turn of the `foreach` extends the echoed rows by that city's row and the requests by that city's request, if any |
| CityWeatherAjax.NoKeyEveryRowNotAvailable | storefront/functions.php:230-234 | without a key every row shows `N/A` and no request is made |
| CityWeatherAjax.FailureStaysInItsRow | storefront/functions.php:229-235 | one row's transport error shows `Error` in that row, and a row for another city shows the same cells whatever that request returned |
| CityWeatherAjax.QuotedSearchNeedsBackslash | storefront/functions.php:216 | a typed quote, double quote or backslash leaves a backslash in the term, so every returned row's title or country holds a backslash |
| CityWeatherAjax.MatchNeedsBackslash | storefront/functions.php:196-198 | a term holding a backslash matches only a title or country holding one |
| CityWeatherAjax.SameHandlerForEveryone | storefront/functions.php:245-246 | logged-in and anonymous callers of the action reach the same handler |
| CityWeatherAjax.AjaxHooks | storefront/functions.php:245-246 | the two `add_action` registrations; `SameHandlerForEveryone` states that both name the handler |
| CityWeatherAjax.HandlerFor | storefront/functions.php:245-246 | the hook WordPress fires for an action; `SameHandlerForEveryone` and `PageActionIsServed` state which handler it reaches |
| CityWeatherAjax.PageActionIsServed | storefront/functions.php:245-246 | the `fetch_city_weather` action the search page posts reaches the handler, logged in or not |
| CityWeatherAjax.MissingSearchIsEmpty | storefront/functions.php:216 | a missing `search` field searches for "" and so adds no condition |
| CityWeatherAjax.SearchTerm | storefront/functions.php:216 | the term is "" when the `search` field is missing, and is always clean text: no tab or line break, no double space, no whitespace at either end |
| CityWeatherWidget.Widget | storefront/functions.php:109-139 | the widget echoes `before_widget`, then the title of its branch between `before_title` and `after_title`, then the branch's paragraph, then `after_widget` |
| CityWeatherWidget.ViewOf | storefront/functions.php:110-131 | which of the three branches `widget()` takes; `NotSpecifiedIff` and `FoundIff` state when each one is taken |
| CityWeatherWidget.CityOf | storefront/functions.php:110 | the name `widget()` uses: "" when unset or PHP-empty, otherwise sanitized; `NotSpecifiedIff` and `UpdateStoresCity` state its meaning |
| CityWeatherWidget.Title | storefront/functions.php:121-136 | the title each branch echoes; `FoundTitleEscaped` states that the found branch's title is the escaped provider name |
| CityWeatherWidget.Body | storefront/functions.php:122-137 | the paragraph each branch echoes; `Widget` states that it follows the title |
| CityWeatherWidget.WidgetHtml | storefront/functions.php:120-137 | the branch's four echoes in order; `Widget` states that the method's output is this |
| CityWeatherWidget.Update | storefront/functions.php:169-173 | `update` always stores a name, and it is "" or already sanitized |
| CityWeatherWidget.NotSpecifiedIff | storefront/functions.php:110-112 | "City not specified" is shown exactly when no name is saved or it sanitizes to "" or "0", and then the transport is not consulted |
| CityWeatherWidget.FoundIff | storefront/functions.php:113-123 | the temperature branch is taken exactly when the decoded body has `main.temp`; it shows that temperature and the provider's `name` |
| CityWeatherWidget.WidgetAgreesWithTable | storefront/functions.php:113-117 | the widget shows temperature `t` for its city exactly when the search table would show `t` for it |
| CityWeatherWidget.NoDataNotFound | storefront/functions.php:125-130 | with a named city, a missing key, a transport error or a body that decodes to `null` shows "City not found" |
| CityWeatherWidget.FoundTitleEscaped | storefront/functions.php:118-122 | the provider's name reaches the page escaped, and decodes back to itself |
| CityWeatherWidget.UpdateStoresCity | storefront/functions.php:171 | `update` stores exactly the name that `widget()` would derive from the same input |
| CityWeatherWidget.UpdateKeepsCity | storefront/functions.php:169-173 | saving never turns an empty name into a non-empty one or the reverse, and leaves a non-empty clean name as it is |
| CityWeatherWidget.UpdateKeepsView | storefront/functions.php:169-173 | saving the settings never changes what the widget shows |
| CityWeatherWidget.UpdateTwice | storefront/functions.php:171 | saving a stored name again keeps it, unless it is "0" |
| CityWeatherWidget.UpdateForgetsZero | storefront/functions.php:171 | " 0" is stored as "0", and the next save stores "" |
| Debounce.Invoked | storefront/assets/js/city-weather.js:8-9 | a call leaves exactly one timer pending, due `wait` from now with this call's arguments, whatever was pending before |
| Debounce.CallForgetsPrevious | storefront/assets/js/city-weather.js:8-9 | a second call replaces the first call's timer |
| Debounce.InvokedValid | storefront/assets/js/city-weather.js:8-9 | after a call, the pending timer is in the future and at most `wait` ahead |
| Debounce.Ticked | storefront/assets/js/city-weather.js:9 | one millisecond of the event loop; `TickFiresOnTime` and `TickedValid` state when the timer runs and that its window is kept |
| Debounce.TickedValid | storefront/assets/js/city-weather.js:9 | a tick keeps the pending timer in that window |
| Debounce.TicksValid | storefront/assets/js/city-weather.js:9 | any number of ticks keeps the pending timer in that window |
| Debounce.TickFiresOnTime | storefront/assets/js/city-weather.js:9 | a tick runs `func` with `args` exactly when the pending timer holds `args` and is due at the tick's moment, and nothing is pending after |
| Debounce.IdleTicks | storefront/assets/js/city-weather.js:3-11 | with nothing pending, time passes and `func` never runs |
| Debounce.QuietTicks | storefront/assets/js/city-weather.js:9 | before its moment, a pending timer only waits |
| Debounce.DueTicks | storefront/assets/js/city-weather.js:9 | at its moment, a pending timer runs `func` once, with its arguments, and nothing is pending after |
| Debounce.BurstFiresOnce | storefront/assets/js/city-weather.js:3-11 | calls spaced less than `wait` apart, the last followed by `wait` quiet ms, run `func` exactly once: `wait` after the last call, with that call's arguments |
| Debounce.Debouncer.constructor | storefront/assets/js/city-weather.js:3-4 | a new debouncer has nothing pending |
| Debounce.Debouncer.Invoke | storefront/assets/js/city-weather.js:5-10 | calling the wrapper moves the object to `Invoked` of its previous state |
| Debounce.Debouncer.Tick | storefront/assets/js/city-weather.js:9 | a tick moves the object to `Ticked` of its previous state, and reports what ran |
| CitySearch.PageTicksFollowTimer | storefront/assets/js/city-weather.js:16-30 | when nobody types, the page posts one request per debounce run, each with the box's value, and changes nothing else |
| CitySearch.Typed | storefront/assets/js/city-weather.js:14-16 | a `keyup`: the box takes its new value and the debounce wrapper is called; `TypingBurstSendsLast` states what a run of them sends |
| CitySearch.Loaded | storefront/assets/js/city-weather.js:1-35 | the page after `ready`: the handler bound and one `keyup` triggered; `NothingSentBeforeWait` and `FirstRequestAtWait` state what follows |
| CitySearch.Dispatch | storefront/assets/js/city-weather.js:17-26 | the POST built from the box's value when the handler runs; `FirstRequestAtWait` and `TypingBurstSendsLast` state that it carries the last value typed |
| CitySearch.PageTick | storefront/assets/js/city-weather.js:16-26 | one millisecond, in which the debounced handler may post the box's value; `PageTicksFollowTimer` states what a run of them does |
| CitySearch.Received | storefront/assets/js/city-weather.js:27-29 | a response arriving; `StaleResponseWins` and `FailureKeepsDisplay` state its effect on the table |
| CitySearch.NothingSentBeforeWait | storefront/assets/js/city-weather.js:14-35 | nothing is posted in the first 399 ms after load |
| CitySearch.FirstRequestAtWait | storefront/assets/js/city-weather.js:14-35 | 400 ms after load exactly one request has been posted, a POST of `fetch_city_weather` with the box's value, and no timer is left |
| CitySearch.TypingBurstSendsLast | storefront/assets/js/city-weather.js:14-31 | keystrokes less than 400 ms apart, then 400 quiet ms, post exactly one request, for the last value typed, and leave the table alone |
| CitySearch.StaleResponseWins | storefront/assets/js/city-weather.js:27-29 | a late answer to an older search overwrites the newer one |
| CitySearch.FailureKeepsDisplay | storefront/assets/js/city-weather.js:27-29 | a failed request leaves the table as it was |
| CitySearch.CitySearchPage.Ready | storefront/assets/js/city-weather.js:14-35 | after `ready`, the page is the `Loaded` state: the triggered `keyup` is pending, with nothing sent yet |
| CitySearch.CitySearchPage.OnKeyUp | storefront/assets/js/city-weather.js:14-16 | a `keyup` sets the box's value and calls the debounced handler, as `Typed` says |
| CitySearch.CitySearchPage.OnTick | storefront/assets/js/city-weather.js:17-26 | a tick advances the debouncer, and if it runs, posts the box's current value, as `PageTick` says |
| CitySearch.CitySearchPage.OnResponse | storefront/assets/js/city-weather.js:27-29 | a successful answer replaces the table's HTML, and a failure changes nothing, as `Received` says |

## Left out

- The WordPress registration plumbing is not modelled: the post type, taxonomy, meta box, widget registration, template filters and script enqueueing. It is configuration with no logic.
- The Storefront bootstrap, the page template and the widget's `form()` dropdown are not modelled. They are markup and framework calls.
- The SQL engine is not modelled. `$wpdb->prepare` is treated as binding the pattern as a value, and quoting is not modelled. A database error is not modelled either; the result is always a list of rows.
- CityQuery.MetaRows, CityQuery.TaxonomyMatches, CityQuery.Where: SQL `=` on `meta_key`, `taxonomy`, `post_type` and `post_status` is exact string equality. The case-insensitive, trailing-space-padding comparison a `_ci` collation applies is left out, so a row stored as `_City_Latitude`, `Country` or `cities ` (with a trailing space) is not joined or kept, where the database would. WordPress writes these values in lower case without padding.
- SqlLike.Fold: the database collation's case-insensitivity is ASCII lower-casing. Accents and other collation rules are left out.
- WpFormatting.SanitizeText: `sanitize_text_field` is modelled only as "whitespace runs become one space, then trim". Tag stripping, octet removal and UTF-8 checks are left out.
- WpFormatting.EscHtml: `esc_html` always encodes `& < > " '`. The case where WordPress avoids double-encoding existing entities is left out.
- `wp_remote_get` is a fixed function from URL to response, so the same URL always gets the same answer within one use of the model. Timeouts and retries are part of the transport and are not seen.
- `json_decode` is folded into `Decoded`. Only what the code inspects is kept: whether the result is `null`, whether it is an object, its `name`, and whether `main.temp` is set. A temperature is an opaque printed number with no arithmetic.
- CityQuery.GetCitiesWeatherData: the query has no `ORDER BY`, so the database may return its rows in any order, including with one post's rows apart. The model fixes one order: posts in table order, and each post's rows in nested-loop join order. Statements that say "in order" about the query's rows are about that order. `CityWeatherAjax.EchoRows`, `WeatherTable.ParseResponseHtml` and the handler's other rendering facts hold for any sequence of rows, so they hold for every order the database might choose.
- WpFormatting.AddSlashes: `addslashes` is applied to the `search` field only. The rest of `$_POST` is not modelled.
- `error_log` calls are left out; they do not affect the output.
- `wp_die()` is modelled as the end of the handler's output. The HTTP response framing is left out.
- Debounce.Valid: the timing lemmas assume `wait` > 0. For `wait` of 0, the model's timer runs at the next tick.
- Time is discrete milliseconds. jQuery, the DOM and the browser's event loop are reduced to the box's value, the table's HTML and one tick at a time.
- Network and server handling of an in-flight request is left out. A response is applied whenever `Received` is used, in whatever order the caller chooses.
- The `this` context that the wrapper captures is part of the generic argument `A`. On the page, it is the search box, and the handler reads the box's value when it runs.
