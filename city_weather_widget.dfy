/**
 * `City_Weather_Widget`: `widget()` shows one city's temperature in three
 * branches (not specified, not found, found), and `update()` stores the
 * sanitized city name. `fetch_weather_data` is `WeatherClient.FetchWeatherData`.
 */
module CityWeatherWidget {
  import opened Wrappers
  import opened WpFormatting
  import opened WeatherClient

  /** A widget instance's settings: `$instance['city_name']`, absent until first saved. */
  datatype Instance = Instance(cityName: Option<string>)

  /** The theme's `$args` around a widget. */
  datatype WidgetArgs = WidgetArgs(beforeWidget: string, afterWidget: string, beforeTitle: string, afterTitle: string)

  /** `!empty($instance['city_name']) ? sanitize_text_field($instance['city_name']) : ''`. */
  function CityOf(instance: Instance): string {
    match instance.cityName
    case None => ""
    case Some(name) => if PhpEmpty(name) then "" else SanitizeText(name)
  }

  /** Which of the three branches `widget()` takes, with what the found branch shows. */
  datatype View = NotSpecified | NotFound | Found(name: string, temperature: Temp)

  /**
   * `if ($city_name)` is false for "" and "0"; otherwise the provider's answer
   * decides, and the found branch shows the provider's `name` (null prints as "").
   */
  function ViewOf(instance: Instance, apiKey: Option<string>, get: Transport): View {
    var city := CityOf(instance);
    if PhpEmpty(city) then NotSpecified
    else
      match FetchWeatherData(apiKey, city, get)
      case Some(WeatherObject(name, Some(t))) => Found(name.GetOr(""), t)
      case _ => NotFound
  }

  function Title(v: View): string {
    match v
    case NotSpecified => "City not specified"
    case NotFound => "City not found"
    case Found(name, _) => EscHtml(name)
  }

  function Body(v: View): string {
    match v
    case NotSpecified => "<p>Please provide a city name.</p>"
    case NotFound => "<p>No data available for the specified city.</p>"
    case Found(_, t) => "<p>Temperature: " + EscHtml(t.text) + "°C</p>"
  }

  /** What `widget()` echoes for a branch. */
  function WidgetHtml(args: WidgetArgs, v: View): string {
    args.beforeWidget + args.beforeTitle + Title(v) + args.afterTitle + Body(v) + args.afterWidget
  }

  /** `widget($args, $instance)`: the four echoes of the branch it takes, in order. */
  method Widget(args: WidgetArgs, instance: Instance, apiKey: Option<string>, get: Transport)
    returns (output: string)
    ensures output == WidgetHtml(args, ViewOf(instance, apiKey, get))
  {
    var city := CityOf(instance);
    var view: View;
    if !PhpEmpty(city) {
      var weatherData := FetchWeatherData(apiKey, city, get);
      if weatherData.Some? && weatherData.value.WeatherObject? && weatherData.value.mainTemp.Some? {
        view := Found(weatherData.value.name.GetOr(""), weatherData.value.mainTemp.value);
      } else {
        view := NotFound;
      }
    } else {
      view := NotSpecified;
    }
    output := args.beforeWidget;
    output := output + args.beforeTitle + Title(view) + args.afterTitle;
    output := output + Body(view);
    output := output + args.afterWidget;
  }

  /** `update($new_instance, $old_instance)`: the old settings are ignored. */
  function Update(newInstance: Instance): (r: Instance)
    ensures r.cityName.Some?
    ensures r.cityName.value == "" || Clean(r.cityName.value)
  {
    match newInstance.cityName
    case None => Instance(Some(""))
    case Some(name) =>
      if PhpEmpty(name) then Instance(Some(""))
      else
        SanitizeTextClean(name);
        Instance(Some(SanitizeText(name)))
  }

  // ---------------------------------------------------------------------------
  // Properties
  // ---------------------------------------------------------------------------

  lemma SanitizeKeepsEmpty(s: string)
    requires PhpEmpty(s)
    ensures SanitizeText(s) == s
  {
    SanitizeTextOfClean(s);
  }

  /**
   * "City not specified" is shown exactly when no name is saved or the saved
   * name sanitizes to "" or "0", and then no request is made.
   */
  lemma NotSpecifiedIff(instance: Instance, apiKey: Option<string>, get: Transport, other: Transport)
    ensures ViewOf(instance, apiKey, get) == NotSpecified <==>
      instance.cityName.None? || PhpEmpty(SanitizeText(instance.cityName.value))
    ensures ViewOf(instance, apiKey, get) == NotSpecified ==> ViewOf(instance, apiKey, other) == NotSpecified
  {
    if instance.cityName.Some? && PhpEmpty(instance.cityName.value) {
      SanitizeKeepsEmpty(instance.cityName.value);
    }
  }

  /**
   * The found branch is taken exactly when the decoded body has `main.temp`; it
   * shows that temperature and the provider's `name`, not the saved one.
   */
  lemma FoundIff(instance: Instance, apiKey: Option<string>, get: Transport, name: string, t: Temp)
    ensures ViewOf(instance, apiKey, get) == Found(name, t) <==>
      !PhpEmpty(CityOf(instance)) &&
      exists n :: FetchWeatherData(apiKey, CityOf(instance), get) == Some(WeatherObject(n, Some(t))) &&
                  name == n.GetOr("")
  {
    var city := CityOf(instance);
    var d := FetchWeatherData(apiKey, city, get);
    if !PhpEmpty(city) && d.Some? && d.value.WeatherObject? && d.value.mainTemp == Some(t) && name == d.value.name.GetOr("") {
      assert d == Some(WeatherObject(d.value.name, Some(t)));
    }
  }

  /** The widget shows a temperature exactly when the table would show that same temperature for the city. */
  lemma WidgetAgreesWithTable(instance: Instance, apiKey: Option<string>, get: Transport, t: Temp)
    ensures (ViewOf(instance, apiKey, get).Found? && ViewOf(instance, apiKey, get).temperature == t) <==>
      !PhpEmpty(CityOf(instance)) && FetchTemperatureForCity(apiKey, CityOf(instance), get) == Temperature(t)
  {
    TableAndWidgetAgree(apiKey, CityOf(instance), get, t);
  }

  /** Without a key, when the request fails, or when the body decodes to `null`, a named city shows "City not found". */
  lemma NoDataNotFound(instance: Instance, apiKey: Option<string>, get: Transport)
    requires !PhpEmpty(CityOf(instance))
    requires PhpEmpty(ApiKey(apiKey)) || get(WeatherUrl(CityOf(instance), ApiKey(apiKey))).WpError? ||
      get(WeatherUrl(CityOf(instance), ApiKey(apiKey))).body == JsonNull
    ensures ViewOf(instance, apiKey, get) == NotFound
    ensures Title(ViewOf(instance, apiKey, get)) == "City not found"
  {
  }

  /** The provider's name reaches the page escaped, and reads back as itself. */
  lemma FoundTitleEscaped(name: string, t: Temp)
    ensures NoMarkup(Title(Found(name, t)))
    ensures UnescapeHtml(Title(Found(name, t))) == name
  {
    UnescapeEscHtml(name);
  }

  /** `update` stores exactly the name `widget()` would use. */
  lemma UpdateStoresCity(instance: Instance)
    ensures Update(instance) == Instance(Some(CityOf(instance)))
  {
  }

  /** Saving again changes the name `widget()` uses only from "0" to "", both of which it ignores. */
  lemma UpdateKeepsCity(instance: Instance)
    ensures PhpEmpty(CityOf(Update(instance))) == PhpEmpty(CityOf(instance))
    ensures !PhpEmpty(CityOf(instance)) ==> CityOf(Update(instance)) == CityOf(instance)
  {
    UpdateStoresCity(instance);
    var c := CityOf(instance);
    if !PhpEmpty(c) {
      SanitizeTextIdempotent(instance.cityName.value);
      assert CityOf(Instance(Some(c))) == SanitizeText(c);
    }
  }

  /** Saving the settings never changes what the widget shows. */
  lemma UpdateKeepsView(instance: Instance, apiKey: Option<string>, get: Transport)
    ensures ViewOf(Update(instance), apiKey, get) == ViewOf(instance, apiKey, get)
  {
    UpdateKeepsCity(instance);
  }

  lemma CollapseSpaceZero()
    ensures CollapseWs(" 0") == " 0"
  {
    var z := "0";
    assert z[0] == '0' && z[1..] == [];
    assert DropWs(z) == z;
    assert CollapseWs(z) == [z[0]] + CollapseWs([]);
    var s := " 0";
    assert s[0] == ' ' && s[1..] == z;
    assert CollapseWs(s) == " " + CollapseWs(DropWs(z));
  }

  lemma TrimSpaceZero()
    ensures Trim(" 0") == "0"
  {
    var s := " 0";
    assert s[1..] == "0";
    TrimLeftOfClean("0");
    TrimRightOfClean("0");
  }

  lemma SanitizeLeadingSpaceZero()
    ensures SanitizeText(" 0") == "0"
  {
    CollapseSpaceZero();
    TrimSpaceZero();
  }

  /** Saving again keeps what was stored, unless what was stored is "0". */
  lemma UpdateTwice(instance: Instance)
    ensures Update(instance).cityName.value != "0" ==> Update(Update(instance)) == Update(instance)
  {
    UpdateStoresCity(instance);
    var c := CityOf(instance);
    UpdateStoresCity(Instance(Some(c)));
    if c != "" && c != "0" {
      SanitizeTextClean(instance.cityName.value);
      SanitizeTextOfClean(c);
      assert CityOf(Instance(Some(c))) == c;
    }
  }

  /** A name that sanitizes to "0" is stored as "0", and the next save turns it into "". */
  lemma UpdateForgetsZero()
    ensures Update(Instance(Some(" 0"))) == Instance(Some("0"))
    ensures Update(Update(Instance(Some(" 0")))) == Instance(Some(""))
  {
    SanitizeLeadingSpaceZero();
    assert CityOf(Instance(Some(" 0"))) == "0";
    UpdateStoresCity(Instance(Some(" 0")));
    UpdateStoresCity(Instance(Some("0")));
    assert CityOf(Instance(Some("0"))) == "";
  }
}
