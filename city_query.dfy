/**
 * `get_cities_weather_data`: the SQL query over the WordPress tables, evaluated
 * as a nested-loop join over in-memory tables. The database's row order is the
 * order of the table sequences; the query has no ORDER BY.
 */
module CityQuery {
  import opened Wrappers
  import opened Seqs
  import opened SqlLike
  import WpFormatting

  // ---------------------------------------------------------------------------
  // Tables
  // ---------------------------------------------------------------------------

  datatype Post = Post(id: int, postType: string, postStatus: string, postTitle: string)
  datatype PostMeta = PostMeta(postId: int, metaKey: string, metaValue: string)
  datatype TermRelationship = TermRelationship(objectId: int, termTaxonomyId: int)
  datatype TermTaxonomy = TermTaxonomy(termTaxonomyId: int, termId: int, taxonomy: string)
  datatype Term = Term(termId: int, name: string)

  /** `wp_posts`, `wp_postmeta`, `wp_term_relationships`, `wp_term_taxonomy`, `wp_terms`. */
  datatype Db = Db(
    posts: seq<Post>,
    postmeta: seq<PostMeta>,
    termRelationships: seq<TermRelationship>,
    termTaxonomy: seq<TermTaxonomy>,
    terms: seq<Term>)

  /** One result row: `ID, city_name, latitude, longitude, country` (country may be NULL). */
  datatype CityRow = CityRow(id: int, cityName: string, latitude: string, longitude: string, country: Option<string>)

  const CitiesPostType := "cities"
  const PublishStatus := "publish"
  const LatitudeKey := "_city_latitude"
  const LongitudeKey := "_city_longitude"
  const CountryTaxonomy := "country"

  /** The primary keys of `wp_term_taxonomy` and `wp_terms` are unique, as WordPress keeps them. */
  predicate KeysUnique(db: Db) {
    (forall i, j :: 0 <= i < j < |db.termTaxonomy| ==>
       db.termTaxonomy[i].termTaxonomyId != db.termTaxonomy[j].termTaxonomyId) &&
    (forall i, j :: 0 <= i < j < |db.terms| ==> db.terms[i].termId != db.terms[j].termId)
  }

  // ---------------------------------------------------------------------------
  // Joins
  // ---------------------------------------------------------------------------

  /** `LEFT JOIN`: every match, or a single NULL row when nothing matches. */
  function LeftJoin<T(!new)>(matches: seq<T>): (r: seq<Option<T>>)
    ensures matches == [] ==> r == [None]
    ensures matches != [] ==> |r| == |matches| && forall i :: 0 <= i < |r| ==> r[i] == Some(matches[i])
  {
    if matches == [] then [None] else Map(matches, (x: T) => Some(x))
  }

  /** `INNER JOIN postmeta ON p.ID = post_id AND meta_key = key`. */
  function MetaRows(db: Db, id: int, key: string): seq<PostMeta> {
    Filter(db.postmeta, (m: PostMeta) => m.postId == id && m.metaKey == key)
  }

  /** `LEFT JOIN term_relationships tr ON p.ID = tr.object_id`. */
  function Relationships(db: Db, id: int): seq<TermRelationship> {
    Filter(db.termRelationships, (tr: TermRelationship) => tr.objectId == id)
  }

  /** `LEFT JOIN term_taxonomy tt ON tr.term_taxonomy_id = tt.term_taxonomy_id AND tt.taxonomy = 'country'`. */
  function TaxonomyMatches(db: Db, tr: Option<TermRelationship>): seq<TermTaxonomy> {
    match tr
    case None => []
    case Some(r) =>
      Filter(db.termTaxonomy, (tt: TermTaxonomy) => tt.termTaxonomyId == r.termTaxonomyId && tt.taxonomy == CountryTaxonomy)
  }

  /** `LEFT JOIN terms t ON tt.term_id = t.term_id`. */
  function TermMatches(db: Db, tt: Option<TermTaxonomy>): seq<Term> {
    match tt
    case None => []
    case Some(x) => Filter(db.terms, (t: Term) => t.termId == x.termId)
  }

  /** What the three LEFT JOINs contribute for one relationship row (or its NULL). */
  function TermsVia(db: Db, tr: Option<TermRelationship>): seq<Option<Term>> {
    FlatMap(LeftJoin(TaxonomyMatches(db, tr)), (tt: Option<TermTaxonomy>) => LeftJoin(TermMatches(db, tt)))
  }

  /** The `t.*` side of the three LEFT JOINs for one post, one entry per joined row. */
  function TermOptions(db: Db, id: int): seq<Option<Term>> {
    FlatMap(LeftJoin(Relationships(db, id)), (tr: Option<TermRelationship>) => TermsVia(db, tr))
  }

  /** One row of the joined relation, before WHERE and SELECT. */
  datatype Joined = Joined(post: Post, lat: PostMeta, lon: PostMeta, term: Option<Term>)

  /** The joined rows for one post and one choice of latitude and longitude rows. */
  function TermJoins(db: Db, p: Post, lat: PostMeta, lon: PostMeta): seq<Joined> {
    Map(TermOptions(db, p.id), (t: Option<Term>) => Joined(p, lat, lon, t))
  }

  /** The joined rows for one post and one latitude row. */
  function LonJoins(db: Db, p: Post, lat: PostMeta): seq<Joined> {
    FlatMap(MetaRows(db, p.id, LongitudeKey), (lon: PostMeta) => TermJoins(db, p, lat, lon))
  }

  /** Every joined row for one post, in nested-loop order. */
  function PostJoins(db: Db, p: Post): seq<Joined> {
    FlatMap(MetaRows(db, p.id, LatitudeKey), (lat: PostMeta) => LonJoins(db, p, lat))
  }

  // ---------------------------------------------------------------------------
  // WHERE and SELECT
  // ---------------------------------------------------------------------------

  /** `$search_query`: the extra condition's pattern, or none when the term is PHP-empty. */
  function SearchCondition(search: string): (r: Option<string>)
    ensures r.None? <==> WpFormatting.PhpEmpty(search)
    ensures r.Some? ==> Like(search, r.value)
  {
    if WpFormatting.PhpEmpty(search) then None
    else
      LikePrefixPattern(search, search);
      Some(PrefixPattern(search))
  }

  /**
   * The WHERE clause. `t.name LIKE …` on a NULL term is unknown, which WHERE
   * treats as false, so only the title can satisfy the condition then.
   */
  predicate Where(j: Joined, cond: Option<string>) {
    j.post.postType == CitiesPostType && j.post.postStatus == PublishStatus &&
    match cond
    case None => true
    case Some(pattern) =>
      Like(j.post.postTitle, pattern) || (j.term.Some? && Like(j.term.value.name, pattern))
  }

  function Select(j: Joined): CityRow {
    CityRow(j.post.id, j.post.postTitle, j.lat.metaValue, j.lon.metaValue,
            match j.term case None => None case Some(t) => Some(t.name))
  }

  /** The result rows the query yields for one post. */
  function PostResults(db: Db, p: Post, cond: Option<string>): seq<CityRow> {
    Map(Filter(PostJoins(db, p), (j: Joined) => Where(j, cond)), Select)
  }

  /**
   * `get_cities_weather_data($search)`: the rows of `$wpdb->get_results($query)`.
   * The query has no `ORDER BY`; the model returns the rows post by post, in
   * nested-loop join order.
   */
  function GetCitiesWeatherData(db: Db, search: string): seq<CityRow> {
    FlatMap(db.posts, (p: Post) => PostResults(db, p, SearchCondition(search)))
  }

  // ---------------------------------------------------------------------------
  // Properties
  // ---------------------------------------------------------------------------

  /** The condition a row's title and country must meet for a term. */
  predicate MatchesTerm(title: string, country: Option<string>, search: string) {
    WpFormatting.PhpEmpty(search) ||
    StartsWithCI(title, search) || (country.Some? && StartsWithCI(country.value, search))
  }

  /** The WHERE clause, read as a statement about the term rather than about patterns. */
  lemma WhereMeaning(j: Joined, search: string)
    ensures Where(j, SearchCondition(search)) <==>
      j.post.postType == CitiesPostType && j.post.postStatus == PublishStatus &&
      MatchesTerm(j.post.postTitle, Select(j).country, search)
  {
    if !WpFormatting.PhpEmpty(search) {
      LikePrefixPattern(j.post.postTitle, search);
      if j.term.Some? {
        LikePrefixPattern(j.term.value.name, search);
      }
    }
  }

  /** A joined row whose country is NULL passes a non-empty term only through its title. */
  lemma NullCountryNeverMatches(j: Joined, search: string)
    requires j.term.None? && !WpFormatting.PhpEmpty(search)
    ensures Where(j, SearchCondition(search)) <==>
      j.post.postType == CitiesPostType && j.post.postStatus == PublishStatus &&
      StartsWithCI(j.post.postTitle, search)
  {
    WhereMeaning(j, search);
  }

  /** An empty term ("" or "0") adds no condition at all. */
  lemma EmptyTermAddsNoCondition(db: Db, search: string)
    requires WpFormatting.PhpEmpty(search)
    ensures GetCitiesWeatherData(db, search) == GetCitiesWeatherData(db, "")
  {
    assert SearchCondition(search) == SearchCondition("");
  }

  /** Every joined row really comes from the tables: the post, both coordinates and the term chain. */
  lemma PostJoinsSound(db: Db, p: Post, j: Joined)
    requires j in PostJoins(db, p)
    ensures j.post == p
    ensures j.lat in db.postmeta && j.lat.postId == p.id && j.lat.metaKey == LatitudeKey
    ensures j.lon in db.postmeta && j.lon.postId == p.id && j.lon.metaKey == LongitudeKey
    ensures j.term in TermOptions(db, p.id)
  {
    var lat := FlatMapOrigin(MetaRows(db, p.id, LatitudeKey), (lat: PostMeta) => LonJoins(db, p, lat), j);
    var lon := FlatMapOrigin(MetaRows(db, p.id, LongitudeKey), (lon: PostMeta) => TermJoins(db, p, lat, lon), j);
    var ts := TermOptions(db, p.id);
    var k :| 0 <= k < |ts| && j == Joined(p, lat, lon, ts[k]);
  }

  /** Every (latitude, longitude, term) combination of a post appears among its joined rows. */
  lemma PostJoinsComplete(db: Db, p: Post, lat: PostMeta, lon: PostMeta, t: Option<Term>)
    requires lat in db.postmeta && lat.postId == p.id && lat.metaKey == LatitudeKey
    requires lon in db.postmeta && lon.postId == p.id && lon.metaKey == LongitudeKey
    requires t in TermOptions(db, p.id)
    ensures Joined(p, lat, lon, t) in PostJoins(db, p)
  {
    var ts := TermOptions(db, p.id);
    var k :| 0 <= k < |ts| && ts[k] == t;
    var inner := TermJoins(db, p, lat, lon);
    assert inner[k] == Joined(p, lat, lon, t);
    assert Joined(p, lat, lon, t) in inner;
    FlatMapIn(MetaRows(db, p.id, LongitudeKey), (lon: PostMeta) => TermJoins(db, p, lat, lon), lon, Joined(p, lat, lon, t));
    FlatMapIn(MetaRows(db, p.id, LatitudeKey), (lat: PostMeta) => LonJoins(db, p, lat), lat, Joined(p, lat, lon, t));
  }

  /** Each result row of a post is the projection of one of its joined rows that passed WHERE. */
  lemma PostResultsSource(db: Db, p: Post, cond: Option<string>, r: CityRow) returns (j: Joined)
    requires r in PostResults(db, p, cond)
    ensures j in PostJoins(db, p) && Where(j, cond) && r == Select(j)
  {
    var kept := Filter(PostJoins(db, p), (x: Joined) => Where(x, cond));
    var k :| 0 <= k < |kept| && r == Select(kept[k]);
    j := kept[k];
  }

  /**
   * Soundness: a returned row is a published `cities` post with both coordinate
   * meta rows, whose title or country starts with the non-empty term.
   */
  lemma ResultSound(db: Db, search: string, r: CityRow)
    requires r in GetCitiesWeatherData(db, search)
    ensures exists p :: (p in db.posts && p.id == r.id && p.postTitle == r.cityName &&
      p.postType == CitiesPostType && p.postStatus == PublishStatus)
    ensures PostMeta(r.id, LatitudeKey, r.latitude) in db.postmeta
    ensures PostMeta(r.id, LongitudeKey, r.longitude) in db.postmeta
    ensures MatchesTerm(r.cityName, r.country, search)
    ensures exists t :: t in TermOptions(db, r.id) && r.country == (match t case None => None case Some(x) => Some(x.name))
  {
    var cond := SearchCondition(search);
    var p := FlatMapOrigin(db.posts, (p: Post) => PostResults(db, p, cond), r);
    var j := PostResultsSource(db, p, cond, r);
    PostJoinsSound(db, p, j);
    WhereMeaning(j, search);
    assert j.lat == PostMeta(r.id, LatitudeKey, r.latitude);
    assert j.lon == PostMeta(r.id, LongitudeKey, r.longitude);
    assert r.country == (match j.term case None => None case Some(x) => Some(x.name));
  }

  /**
   * Completeness: for every published `cities` post with both coordinates, every
   * joined row whose title or country meets the term is returned.
   */
  lemma ResultComplete(db: Db, search: string, p: Post, lat: PostMeta, lon: PostMeta, t: Option<Term>)
    requires p in db.posts && p.postType == CitiesPostType && p.postStatus == PublishStatus
    requires lat in db.postmeta && lat.postId == p.id && lat.metaKey == LatitudeKey
    requires lon in db.postmeta && lon.postId == p.id && lon.metaKey == LongitudeKey
    requires t in TermOptions(db, p.id)
    requires MatchesTerm(p.postTitle, Select(Joined(p, lat, lon, t)).country, search)
    ensures Select(Joined(p, lat, lon, t)) in GetCitiesWeatherData(db, search)
  {
    var cond := SearchCondition(search);
    var j := Joined(p, lat, lon, t);
    PostJoinsComplete(db, p, lat, lon, t);
    WhereMeaning(j, search);
    var kept := Filter(PostJoins(db, p), (x: Joined) => Where(x, cond));
    assert j in kept;
    var k :| 0 <= k < |kept| && kept[k] == j;
    assert PostResults(db, p, cond)[k] == Select(j);
    FlatMapIn(db.posts, (p: Post) => PostResults(db, p, cond), p, Select(j));
  }

  /** A post that lacks either coordinate meta row is never returned, whatever the term. */
  lemma MissingCoordinateNeverReturned(db: Db, search: string, id: int)
    requires (forall m :: m in db.postmeta ==> !(m.postId == id && m.metaKey == LatitudeKey)) ||
             (forall m :: m in db.postmeta ==> !(m.postId == id && m.metaKey == LongitudeKey))
    ensures forall r :: r in GetCitiesWeatherData(db, search) ==> r.id != id
  {
    forall r | r in GetCitiesWeatherData(db, search)
      ensures r.id != id
    {
      ResultSound(db, search, r);
    }
  }

  /** A post without term relationships gets exactly one joined term slot, and it is NULL. */
  lemma NoRelationshipsOneNullCountry(db: Db, id: int)
    requires forall tr :: tr in db.termRelationships ==> tr.objectId != id
    ensures TermOptions(db, id) == [None]
  {
    assert Relationships(db, id) == [] by {
      FilterNone(db.termRelationships, (tr: TermRelationship) => tr.objectId == id);
    }
    assert LeftJoin(Relationships(db, id)) == [None];
    assert LeftJoin(TaxonomyMatches(db, None)) == [None];
    FlatMapSingle(None, (tt: Option<TermTaxonomy>) => LeftJoin(TermMatches(db, tt)));
    assert TermsVia(db, None) == [None];
    FlatMapSingle(None, (tr: Option<TermRelationship>) => TermsVia(db, tr));
  }

  /** The country term a relationship row leads to, if it is a `country` one. */
  function CountryOf(db: Db, tr: TermRelationship): Option<Term> {
    var tts := TaxonomyMatches(db, Some(tr));
    if tts == [] then None
    else
      var ts := TermMatches(db, Some(tts[0]));
      if ts == [] then None else Some(ts[0])
  }

  lemma TermsViaKeyed(db: Db, tr: TermRelationship)
    requires KeysUnique(db)
    ensures TermsVia(db, Some(tr)) == [CountryOf(db, tr)]
  {
    var fTt := (tt: TermTaxonomy) => tt.termTaxonomyId == tr.termTaxonomyId && tt.taxonomy == CountryTaxonomy;
    FilterAtMostOne(db.termTaxonomy, fTt);
    var tts := TaxonomyMatches(db, Some(tr));
    var g := (tt: Option<TermTaxonomy>) => LeftJoin(TermMatches(db, tt));
    if tts == [] {
      assert LeftJoin(tts) == [None];
      assert FlatMap([None], g) == g(None);
    } else {
      var tt := tts[0];
      var fT := (t: Term) => t.termId == tt.termId;
      FilterAtMostOne(db.terms, fT);
      assert LeftJoin(tts) == [Some(tt)];
      assert FlatMap([Some(tt)], g) == g(Some(tt));
    }
  }

  /**
   * With WordPress's unique keys, a post with relationships gets one joined row
   * per relationship, in order; a relationship that is not a `country` one gives
   * a NULL country.
   */
  lemma OneRowPerRelationship(db: Db, id: int)
    requires KeysUnique(db)
    requires Relationships(db, id) != []
    ensures TermOptions(db, id) == Map(Relationships(db, id), (tr: TermRelationship) => CountryOf(db, tr))
    ensures |TermOptions(db, id)| == |Relationships(db, id)|
  {
    var rels := Relationships(db, id);
    var opts := LeftJoin(rels);
    forall i | 0 <= i < |opts|
      ensures TermsVia(db, opts[i]) == [CountryOf(db, rels[i])]
    {
      TermsViaKeyed(db, rels[i]);
    }
    FlatMapSingletons(opts, (tr: Option<TermRelationship>) => TermsVia(db, tr),
      (tr: Option<TermRelationship>) => match tr case None => None case Some(x) => CountryOf(db, x));
  }

  lemma LonJoinsCount(db: Db, p: Post, lat: PostMeta)
    ensures |LonJoins(db, p, lat)| == |MetaRows(db, p.id, LongitudeKey)| * |TermOptions(db, p.id)|
  {
    FlatMapUniformLength(MetaRows(db, p.id, LongitudeKey), (lon: PostMeta) => TermJoins(db, p, lat, lon),
      |TermOptions(db, p.id)|);
  }

  /** Every latitude row of a post is joined with the same number of rows. */
  lemma LonJoinsUniform(db: Db, p: Post, k: nat)
    requires k == |MetaRows(db, p.id, LongitudeKey)| * |TermOptions(db, p.id)|
    ensures forall lat :: |LonJoins(db, p, lat)| == k
  {
    forall lat
      ensures |LonJoins(db, p, lat)| == k
    {
      LonJoinsCount(db, p, lat);
    }
  }

  /** A post yields (latitude rows) x (longitude rows) x (term slots) joined rows. */
  lemma PostJoinsCount(db: Db, p: Post)
    ensures |PostJoins(db, p)| ==
      |MetaRows(db, p.id, LatitudeKey)| * (|MetaRows(db, p.id, LongitudeKey)| * |TermOptions(db, p.id)|)
  {
    var k := |MetaRows(db, p.id, LongitudeKey)| * |TermOptions(db, p.id)|;
    LonJoinsUniform(db, p, k);
    FlatMapUniformLength(MetaRows(db, p.id, LatitudeKey), (lat: PostMeta) => LonJoins(db, p, lat), k);
  }

  /** For an empty term, a published city keeps every one of its joined rows. */
  lemma EmptyTermKeepsAllJoins(db: Db, p: Post, search: string)
    requires p.postType == CitiesPostType && p.postStatus == PublishStatus
    requires WpFormatting.PhpEmpty(search)
    ensures PostResults(db, p, SearchCondition(search)) == Map(PostJoins(db, p), Select)
  {
    var js := PostJoins(db, p);
    forall j | j in js
      ensures Where(j, None)
    {
      PostJoinsSound(db, p, j);
    }
    FilterAll(js, (j: Joined) => Where(j, None));
  }

  lemma {:induction false} FilterAll<T(!new)>(s: seq<T>, f: T -> bool)
    requires forall x :: x in s ==> f(x)
    ensures Filter(s, f) == s
  {
    if s != [] {
      FilterAll(s[1..], f);
    }
  }

  /**
   * A post with no term relationships and one row per coordinate yields one
   * row, with a NULL country, when its title meets the term, and none otherwise.
   */
  lemma LoneCityOneRow(db: Db, p: Post, lat: PostMeta, lon: PostMeta, search: string)
    requires p.postType == CitiesPostType && p.postStatus == PublishStatus
    requires MetaRows(db, p.id, LatitudeKey) == [lat] && MetaRows(db, p.id, LongitudeKey) == [lon]
    requires forall tr :: tr in db.termRelationships ==> tr.objectId != p.id
    ensures MatchesTerm(p.postTitle, None, search) ==>
      PostResults(db, p, SearchCondition(search)) == [CityRow(p.id, p.postTitle, lat.metaValue, lon.metaValue, None)]
    ensures !MatchesTerm(p.postTitle, None, search) ==> PostResults(db, p, SearchCondition(search)) == []
  {
    NoRelationshipsOneNullCountry(db, p.id);
    PostJoinsCount(db, p);
    var j := Joined(p, lat, lon, None);
    assert j in PostJoins(db, p) by {
      PostJoinsComplete(db, p, lat, lon, None);
    }
    assert PostJoins(db, p) == [j];
    WhereMeaning(j, search);
    var f := (x: Joined) => Where(x, SearchCondition(search));
    assert Filter([j], f) == (if f(j) then [j] else []) + Filter([j][1..], f);
  }
}
