/**
 * The two OpenWeather lookups: `fetch_temperature_for_city`, used by the search
 * table, and `City_Weather_Widget::fetch_weather_data`, used by the widget.
 * `wp_remote_get` is a transport passed in as a function from URL to response;
 * `json_decode` is folded into the response datatype.
 */
module WeatherClient {
  import opened Wrappers
  import WpFormatting

  /** A JSON number from the provider, kept opaque: only its printed form is used. */
  datatype Temp = Temp(text: string)

  /**
   * `json_decode($body)` as far as the code looks at it. `JsonNull` is the
   * `null` it returns for an empty or invalid body and for the text `null`;
   * `NotAnObject` covers scalars and arrays; `mainTemp` is `None` when `main`
   * or `main.temp` is missing or null, which is when `isset` is false.
   */
  datatype Decoded = JsonNull | NotAnObject | WeatherObject(name: Option<string>, mainTemp: Option<Temp>)

  /** What `wp_remote_get` returns: a `WP_Error`, or a response with any status code. */
  datatype Response = WpError(message: string) | HttpResponse(status: int, body: Decoded)

  type Transport = string -> Response

  const WeatherEndpoint := "https://api.openweathermap.org/data/2.5/weather"
  const UnitsAndKey := "&units=metric&appid="

  /** `defined('OPENWEATHER_API_KEY') ? OPENWEATHER_API_KEY : ''`; `None` is an undefined constant. */
  function ApiKey(defined: Option<string>): string {
    defined.GetOr("")
  }

  /** The request URL: the city name and the key are inserted as they are, without URL-encoding. */
  function WeatherUrl(city: string, key: string): string {
    WeatherEndpoint + "?q=" + city + UnitsAndKey + key
  }

  /** The URL a lookup requests, or `None` when it returns before making any request. */
  function WeatherRequest(apiKey: Option<string>, city: string): (r: Option<string>)
    ensures r.None? <==> WpFormatting.PhpEmpty(ApiKey(apiKey))
    ensures r.Some? ==> r.value == WeatherUrl(city, ApiKey(apiKey))
  {
    var key := ApiKey(apiKey);
    if WpFormatting.PhpEmpty(key) then None else Some(WeatherUrl(city, key))
  }

  /** The value `fetch_temperature_for_city` returns: `'N/A'`, `'Error'` or `main.temp`. */
  datatype TempResult = NotAvailable | Error | Temperature(temp: Temp)

  /** The text that ends up in the table cell (before escaping). */
  function TempText(r: TempResult): string {
    match r
    case NotAvailable => "N/A"
    case Error => "Error"
    case Temperature(t) => t.text
  }

  /** `fetch_temperature_for_city($city_name)`. */
  function FetchTemperatureForCity(apiKey: Option<string>, city: string, get: Transport): (r: TempResult)
    ensures WeatherRequest(apiKey, city).None? ==> r == NotAvailable
    ensures WeatherRequest(apiKey, city).Some? ==>
      var resp := get(WeatherUrl(city, ApiKey(apiKey)));
      (r == Error <==> resp.WpError?) &&
      (r.Temperature? <==> resp.HttpResponse? && resp.body.WeatherObject? && resp.body.mainTemp.Some?) &&
      (r.Temperature? ==> r.temp == resp.body.mainTemp.value)
  {
    match WeatherRequest(apiKey, city)
    case None => NotAvailable
    case Some(url) =>
      match get(url)
      case WpError(_) => Error
      case HttpResponse(_, body) =>
        if body.WeatherObject? && body.mainTemp.Some? then Temperature(body.mainTemp.value) else NotAvailable
  }

  /**
   * `City_Weather_Widget::fetch_weather_data($city_name)`: `null`, or the
   * decoded body when that is not `null`.
   */
  function FetchWeatherData(apiKey: Option<string>, city: string, get: Transport): (r: Option<Decoded>)
    ensures r.None? <==>
      (WeatherRequest(apiKey, city).None? || get(WeatherUrl(city, ApiKey(apiKey))).WpError? ||
       get(WeatherUrl(city, ApiKey(apiKey))).body == JsonNull)
    ensures r.Some? ==> r.value != JsonNull
    ensures r.Some? ==> get(WeatherUrl(city, ApiKey(apiKey))) == HttpResponse(get(WeatherUrl(city, ApiKey(apiKey))).status, r.value)
  {
    match WeatherRequest(apiKey, city)
    case None => None
    case Some(url) =>
      match get(url)
      case WpError(_) => None
      case HttpResponse(_, JsonNull) => None
      case HttpResponse(_, body) => Some(body)
  }

  // ---------------------------------------------------------------------------
  // Properties
  // ---------------------------------------------------------------------------

  /** Without a key the answer is 'N/A' whatever the transport would have said: no request is made. */
  lemma NoKeyNoRequest(apiKey: Option<string>, city: string, get1: Transport, get2: Transport)
    requires WpFormatting.PhpEmpty(ApiKey(apiKey))
    ensures FetchTemperatureForCity(apiKey, city, get1) == FetchTemperatureForCity(apiKey, city, get2) == NotAvailable
    ensures FetchWeatherData(apiKey, city, get1) == FetchWeatherData(apiKey, city, get2) == None
  {
  }

  /** The status code plays no part: a 404 or 500 with a body lacking `main.temp` gives 'N/A', not 'Error'. */
  lemma StatusIgnored(apiKey: Option<string>, city: string, s1: int, s2: int, body: Decoded)
    requires !WpFormatting.PhpEmpty(ApiKey(apiKey))
    ensures FetchTemperatureForCity(apiKey, city, (u: string) => HttpResponse(s1, body)) ==
            FetchTemperatureForCity(apiKey, city, (u: string) => HttpResponse(s2, body))
    ensures body.WeatherObject? && body.mainTemp.None? ==>
            FetchTemperatureForCity(apiKey, city, (u: string) => HttpResponse(s1, body)) == NotAvailable
  {
  }

  /** The table lookup and the widget lookup agree on when there is a temperature and what it is. */
  lemma TableAndWidgetAgree(apiKey: Option<string>, city: string, get: Transport, t: Temp)
    ensures FetchTemperatureForCity(apiKey, city, get) == Temperature(t) <==>
      exists name :: FetchWeatherData(apiKey, city, get) == Some(WeatherObject(name, Some(t)))
  {
    var d := FetchWeatherData(apiKey, city, get);
    if d.Some? && d.value.WeatherObject? && d.value.mainTemp == Some(t) {
      assert d == Some(WeatherObject(d.value.name, Some(t)));
    }
  }

  /** The URL starts with the fixed endpoint and carries the city verbatim right after `?q=`. */
  lemma UrlCarriesCityVerbatim(city: string, key: string)
    ensures var u := WeatherUrl(city, key);
      var n := |WeatherEndpoint + "?q="|;
      u[..|WeatherEndpoint|] == WeatherEndpoint &&
      u[|WeatherEndpoint|..n] == "?q=" &&
      u[n..n + |city|] == city &&
      u[n + |city|..] == UnitsAndKey + key
  {
    var u := WeatherUrl(city, key);
    assert u == (WeatherEndpoint + "?q=") + city + (UnitsAndKey + key);
  }

  /** For a fixed key, different cities get different URLs. */
  lemma UrlInjectiveInCity(c1: string, c2: string, key: string)
    ensures WeatherUrl(c1, key) == WeatherUrl(c2, key) ==> c1 == c2
  {
    if WeatherUrl(c1, key) == WeatherUrl(c2, key) {
      var n := |WeatherEndpoint + "?q="|;
      assert |c1| == |c2|;
      UrlCarriesCityVerbatim(c1, key);
      UrlCarriesCityVerbatim(c2, key);
    }
  }

  /**
   * Because nothing is URL-encoded, a city name containing `&units=metric&appid=`
   * produces the same URL as a different city with a different key.
   */
  lemma UrlAmbiguousWithoutEncoding(city: string, key: string, extra: string)
    ensures (city + UnitsAndKey + key, extra) != (city, key + UnitsAndKey + extra)
    ensures WeatherUrl(city + UnitsAndKey + key, extra) == WeatherUrl(city, key + UnitsAndKey + extra)
  {
    assert |city + UnitsAndKey + key| > |city|;
  }
}
