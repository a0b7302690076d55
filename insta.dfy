/** The Instagram record mappers of insta.py. Each `parse_*` takes one list
    with `safe_get(data, <file>, <key>, default=[])`, calls `len` on it, and
    appends one row per item inside `try`/`except Exception`, so an item
    that raises is skipped on its own. The local-time conversion
    `datetime.fromtimestamp(t).isoformat()` is the parameter `localIso`
    (`None` where it raises). */
module Insta {
  import opened Json
  import opened Text
  import opened Seqs
  import opened Records

  /** The rows `parse_*` returns, or `None` where `len` of the looked-up
      value raises (a number, `null` or a boolean). */
  function ParseValue(data: Json, path: seq<string>, row: Json -> Option<Row>): Option<seq<Row>> {
    match Items(SafeGetValue(data, path, List([])))
    case None => None
    case Some(items) => Some(Successes(items, row))
  }

  /** The loop shared by the `parse_*` functions. */
  method ParseList(data: Json, path: seq<string>, row: Json -> Option<Row>) returns (r: Option<seq<Row>>)
    ensures r == ParseValue(data, path, row)
  {
    var found := SafeGet(data, path, List([]));
    var items := Items(found);
    if items.None? {
      return None;
    }
    var xs := items.value;
    var rows: seq<Row> := [];
    for i := 0 to |xs|
      invariant rows == Successes(xs[..i], row)
    {
      assert xs[..i + 1][..i] == xs[..i];
      match row(xs[i]) {
        case Some(u) => rows := rows + [u];
        case None =>
      }
    }
    assert xs[..|xs|] == xs;
    r := Some(rows);
  }

  /** A failing item is skipped and nothing else: every row comes from an
      item, every item that maps contributes its row, in order, and there
      are never more rows than items. A missing path gives no rows. */
  lemma SkipsOnlyFailing(data: Json, path: seq<string>, row: Json -> Option<Row>)
    ensures Walk(data, path).None? ==> ParseValue(data, path, row) == Some([])
    ensures ParseValue(data, path, row).Some? ==>
      var items := Items(SafeGetValue(data, path, List([]))).value;
      && |ParseValue(data, path, row).value| <= |items|
      && forall u :: u in ParseValue(data, path, row).value <==> exists i | 0 <= i < |items| :: row(items[i]) == Some(u)
  {
    var items := Items(SafeGetValue(data, path, List([])));
    if items.Some? {
      SuccessesMembers(items.value, row);
    }
  }

  /** `x['string_list_data'][0][k]`. */
  function FirstListed(x: Json, k: string): Option<Json> {
    match Field(x, "string_list_data")
    case None => None
    case Some(sld) =>
      match First(sld)
      case None => None
      case Some(entry) => Field(entry, k)
  }

  /** `x['string_map_data'][k]`. */
  function Mapped(x: Json, k: string): Option<Json> {
    match Field(x, "string_map_data")
    case None => None
    case Some(smd) => Field(smd, k)
  }

  /** `fromtimestamp(int(v)).isoformat()`. */
  function IsoOfInt(v: Json, localIso: int -> Option<string>): Option<string> {
    match PyInt(v)
    case None => None
    case Some(t) => localIso(t)
  }

  /** `parse_following`: the first `string_list_data` entry, with defaults
      for every field of it. */
  function FollowingRow(localIso: int -> Option<string>, account: Json): (r: Option<Row>)
    ensures r.Some? ==> r.value.dataType == "instagram_following" && r.value.action == "Follow" && r.value.details == []
    ensures account.Obj? && !HasKey(account.fields, "string_list_data") ==>
      r == match localIso(0)
           case None => None
           case Some(d) => Some(Row("instagram_following", "Follow", Str("Unknown Account"), Str(""), Str(d), []))
  {
    if !account.Obj? then None
    else
      match First(Get(account.fields, "string_list_data", List([Obj([])])))
      case None => None
      case Some(entry) =>
        if !entry.Obj? then None
        else
          match IsoOfInt(Get(entry.fields, "timestamp", Int(0)), localIso)
          case None => None
          case Some(d) =>
            Some(Row("instagram_following", "Follow", Get(entry.fields, "value", Str("Unknown Account")),
              Get(entry.fields, "href", Str("")), Str(d), []))
  }

  /** `parse_posts`: every field read with `.get`, so any dict maps. */
  function PostRow(post: Json): (r: Option<Row>)
    ensures r.Some? <==> post.Obj?
    ensures r.Some? ==> r.value.dataType == "instagram_post" && r.value.action == "Post"
    ensures r.Some? ==> r.value.date == Get(post.fields, "creation_timestamp", Str(""))
  {
    if !post.Obj? then None
    else
      var get := (k: string) => Get(post.fields, k, Str(""));
      Some(Row("instagram_post", "Post", get("title"), get("uri"), get("creation_timestamp"),
        [("caption", get("caption")), ("location", get("location")), ("media_type", get("media_type"))]))
  }

  /** `parse_likes`: the title is required, URL and time come from the
      first `string_list_data` entry. */
  function LikeRow(localIso: int -> Option<string>, like: Json): (r: Option<Row>)
    ensures r.Some? ==> r.value.dataType == "instagram_like" && r.value.action == "Like"
    ensures r.Some? ==> Field(like, "title") == Some(r.value.title) && FirstListed(like, "href") == Some(r.value.url)
  {
    match (Field(like, "title"), FirstListed(like, "href"), FirstListed(like, "timestamp"))
    case (Some(title), Some(href), Some(ts)) =>
      (match FromTimestamp(ts, localIso)
       case None => None
       case Some(d) => Some(Row("instagram_like", "Like", title, href, Str(d), [])))
    case _ => None
  }

  /** `parse_ads_clicked`: a title defaulting to `'Unknown Ad'`, no URL. */
  function AdClickedRow(localIso: int -> Option<string>, ad: Json): (r: Option<Row>)
    ensures r.Some? ==> r.value.dataType == "instagram_ad_clicked" && r.value.action == "AdClick" && r.value.url == Str("")
    ensures r.Some? && ad.Obj? && !HasKey(ad.fields, "title") ==> r.value.title == Str("Unknown Ad")
  {
    if !ad.Obj? then None
    else
      match FirstListed(ad, "timestamp")
      case None => None
      case Some(ts) =>
        match FromTimestamp(ts, localIso)
        case None => None
        case Some(d) => Some(Row("instagram_ad_clicked", "AdClick", Get(ad.fields, "title", Str("Unknown Ad")), Str(""), Str(d), []))
  }

  /** The fixed fields of every `parse_ads_viewed` row, with its defaults. */
  function AdViewed(title: Json, date: string): Row {
    Row("instagram_ad_viewed", "AdView", title, Str(""), Str(date), [])
  }

  /** The `Author` part of `parse_ads_viewed`: the title, or `None` where
      the lookup raises. */
  function AdTitle(smd: Json): Option<Json> {
    match In("Author", smd)
    case None => None
    case Some(false) => Some(Str("Ad Viewed"))
    case Some(true) =>
      match Field(smd, "Author")
      case None => None
      case Some(author) => GetOr(author, "value", Str("Ad Viewed"))
  }

  /** The `Time` part of `parse_ads_viewed`: the date, `""` when there is no
      `Time` or its timestamp is falsy, `None` where a step raises. */
  function AdDate(localIso: int -> Option<string>, smd: Json): Option<string> {
    match In("Time", smd)
    case None => None
    case Some(false) => Some("")
    case Some(true) =>
      match Field(smd, "Time")
      case None => None
      case Some(time) =>
        match GetOr(time, "timestamp", Null)
        case None => None
        case Some(ts) => if Truthy(ts) then IsoOfInt(ts, localIso) else Some("")
  }

  /** `parse_ads_viewed`: a default row whose title and date `string_map_data`
      may overwrite. */
  function AdViewedRow(localIso: int -> Option<string>, ad: Json): (r: Option<Row>)
    ensures r.Some? ==> r.value.dataType == "instagram_ad_viewed" && r.value.action == "AdView" && r.value.url == Str("")
    ensures r.Some? && r.value.title != Str("Ad Viewed") ==>
      && Mapped(ad, "Author").Some?
      && GetOr(Mapped(ad, "Author").value, "value", Str("Ad Viewed")) == Some(r.value.title)
    ensures r.Some? && r.value.date != Str("") ==>
      && Mapped(ad, "Time").Some? && Mapped(ad, "Time").value.Obj?
      && Truthy(Get(Mapped(ad, "Time").value.fields, "timestamp", Null))
  {
    match In("string_map_data", ad)
    case None => None
    case Some(false) => Some(AdViewed(Str("Ad Viewed"), ""))
    case Some(true) =>
      match Field(ad, "string_map_data")
      case None => None
      case Some(smd) =>
        match (AdTitle(smd), AdDate(localIso, smd))
        case (Some(title), Some(date)) => Some(AdViewed(title, date))
        case _ => None
  }

  /** An ad without `string_map_data` keeps every default. */
  lemma AdWithoutMapData(localIso: int -> Option<string>, ad: Json)
    requires ad.Obj? && !HasKey(ad.fields, "string_map_data")
    ensures AdViewedRow(localIso, ad) == Some(Row("instagram_ad_viewed", "AdView", Str("Ad Viewed"), Str(""), Str(""), []))
  {
  }

  /** An `Author` with a `value` sets the title; without `Time` the date
      stays empty. */
  lemma AuthorSetsTitle(localIso: int -> Option<string>, v: Json)
    ensures AdViewedRow(localIso, Obj([("string_map_data", Obj([("Author", Obj([("value", v)]))]))]))
      == Some(AdViewed(v, ""))
  {
    var author := Obj([("value", v)]);
    var smd := Obj([("Author", author)]);
    var ad := Obj([("string_map_data", smd)]);
    assert Lookup(ad.fields, "string_map_data") == Some(smd);
    assert Lookup(smd.fields, "Author") == Some(author);
    assert !HasKey(smd.fields, "Time");
    assert Lookup(author.fields, "value") == Some(v);
  }

  /** A falsy timestamp (here `0`) leaves the date empty. */
  lemma FalsyTimestampNoDate(localIso: int -> Option<string>)
    ensures AdViewedRow(localIso, Obj([("string_map_data", Obj([("Time", Obj([("timestamp", Int(0))]))]))]))
      == Some(AdViewed(Str("Ad Viewed"), ""))
  {
    var time := Obj([("timestamp", Int(0))]);
    var smd := Obj([("Time", time)]);
    var ad := Obj([("string_map_data", smd)]);
    assert Lookup(ad.fields, "string_map_data") == Some(smd);
    assert !HasKey(smd.fields, "Author");
    assert Lookup(smd.fields, "Time") == Some(time);
    assert Lookup(time.fields, "timestamp") == Some(Int(0));
  }

  /** `parse_posts_viewed` and `parse_videos_watched`: the author's value
      and the integer time under `string_map_data`, all required. */
  function ViewedRow(dataType: string, action: string, localIso: int -> Option<string>, x: Json): (r: Option<Row>)
    ensures r.Some? ==> r.value.dataType == dataType && r.value.action == action && r.value.url == Str("")
    ensures r.Some? ==> Mapped(x, "Author").Some? && Field(Mapped(x, "Author").value, "value") == Some(r.value.title)
    ensures r.Some? ==> Mapped(x, "Time").Some? && Field(Mapped(x, "Time").value, "timestamp").Some?
  {
    match (Mapped(x, "Author"), Mapped(x, "Time"))
    case (Some(author), Some(time)) =>
      (match (Field(author, "value"), Field(time, "timestamp"))
       case (Some(title), Some(ts)) =>
         (match IsoOfInt(ts, localIso)
          case None => None
          case Some(d) => Some(Row(dataType, action, title, Str(""), Str(d), [])))
       case _ => None)
    case _ => None
  }

  /** `parse_following`: every row is a followed account, without details,
      and an export without the list gives no rows. */
  function Following(data: Json, localIso: int -> Option<string>): (r: Option<seq<Row>>)
    ensures Walk(data, ["following.json", "relationships_following"]).None? ==> r == Some([])
    ensures r.Some? ==> forall u | u in r.value :: u.dataType == "instagram_following" && u.action == "Follow" && u.details == []
  {
    var path, row := ["following.json", "relationships_following"], x => FollowingRow(localIso, x);
    SkipsOnlyFailing(data, path, row);
    RowsHold(data, path, row, (u: Row) => u.dataType == "instagram_following" && u.action == "Follow" && u.details == []);
    ParseValue(data, path, row)
  }

  /** `parse_posts`: every row is a post, and an export without the list
      gives no rows. */
  function Posts(data: Json): (r: Option<seq<Row>>)
    ensures Walk(data, ["posts_1.json", "media"]).None? ==> r == Some([])
    ensures r.Some? ==> forall u | u in r.value :: u.dataType == "instagram_post" && u.action == "Post"
  {
    var path, row := ["posts_1.json", "media"], PostRow;
    SkipsOnlyFailing(data, path, row);
    RowsHold(data, path, row, (u: Row) => u.dataType == "instagram_post" && u.action == "Post");
    ParseValue(data, path, row)
  }

  /** `parse_likes`: every row is a liked post, and an export without the
      list gives no rows. */
  function Likes(data: Json, localIso: int -> Option<string>): (r: Option<seq<Row>>)
    ensures Walk(data, ["likes.json", "likes_media_likes"]).None? ==> r == Some([])
    ensures r.Some? ==> forall u | u in r.value :: u.dataType == "instagram_like" && u.action == "Like"
  {
    var path, row := ["likes.json", "likes_media_likes"], x => LikeRow(localIso, x);
    SkipsOnlyFailing(data, path, row);
    RowsHold(data, path, row, (u: Row) => u.dataType == "instagram_like" && u.action == "Like");
    ParseValue(data, path, row)
  }

  /** `parse_ads_clicked`: every row is a clicked ad without a URL, and an
      export without the list gives no rows. */
  function AdsClicked(data: Json, localIso: int -> Option<string>): (r: Option<seq<Row>>)
    ensures Walk(data, ["ads_clicked.json", "impressions_history_ads_clicked"]).None? ==> r == Some([])
    ensures r.Some? ==> forall u | u in r.value :: u.dataType == "instagram_ad_clicked" && u.action == "AdClick" && u.url == Str("")
  {
    var path, row := ["ads_clicked.json", "impressions_history_ads_clicked"], x => AdClickedRow(localIso, x);
    SkipsOnlyFailing(data, path, row);
    RowsHold(data, path, row, (u: Row) => u.dataType == "instagram_ad_clicked" && u.action == "AdClick" && u.url == Str(""));
    ParseValue(data, path, row)
  }

  /** `parse_ads_viewed`: every row is a viewed ad without a URL, and an
      export without the list gives no rows. */
  function AdsViewed(data: Json, localIso: int -> Option<string>): (r: Option<seq<Row>>)
    ensures Walk(data, ["ads_viewed.json", "impressions_history_ads_seen"]).None? ==> r == Some([])
    ensures r.Some? ==> forall u | u in r.value :: u.dataType == "instagram_ad_viewed" && u.action == "AdView" && u.url == Str("")
  {
    var path, row := ["ads_viewed.json", "impressions_history_ads_seen"], x => AdViewedRow(localIso, x);
    SkipsOnlyFailing(data, path, row);
    RowsHold(data, path, row, (u: Row) => u.dataType == "instagram_ad_viewed" && u.action == "AdView" && u.url == Str(""));
    ParseValue(data, path, row)
  }

  /** `parse_posts_viewed`: every row is a viewed post without a URL, and an
      export without the list gives no rows. */
  function PostsViewed(data: Json, localIso: int -> Option<string>): (r: Option<seq<Row>>)
    ensures Walk(data, ["posts_viewed.json", "impressions_history_posts_seen"]).None? ==> r == Some([])
    ensures r.Some? ==> forall u | u in r.value :: u.dataType == "instagram_post_viewed" && u.action == "PostView" && u.url == Str("")
  {
    var path, row := ["posts_viewed.json", "impressions_history_posts_seen"], x => ViewedRow("instagram_post_viewed", "PostView", localIso, x);
    SkipsOnlyFailing(data, path, row);
    RowsHold(data, path, row, (u: Row) => u.dataType == "instagram_post_viewed" && u.action == "PostView" && u.url == Str(""));
    ParseValue(data, path, row)
  }

  /** `parse_videos_watched`: every row is a watched video without a URL,
      and an export without the list gives no rows. */
  function VideosWatched(data: Json, localIso: int -> Option<string>): (r: Option<seq<Row>>)
    ensures Walk(data, ["videos_watched.json", "impressions_history_videos_watched"]).None? ==> r == Some([])
    ensures r.Some? ==> forall u | u in r.value :: u.dataType == "instagram_video_watched" && u.action == "VideoWatch" && u.url == Str("")
  {
    var path, row := ["videos_watched.json", "impressions_history_videos_watched"], x => ViewedRow("instagram_video_watched", "VideoWatch", localIso, x);
    SkipsOnlyFailing(data, path, row);
    RowsHold(data, path, row, (u: Row) => u.dataType == "instagram_video_watched" && u.action == "VideoWatch" && u.url == Str(""));
    ParseValue(data, path, row)
  }

  /** A property every row the mapper can build has holds of every row
      the parse returns. */
  lemma RowsHold(data: Json, path: seq<string>, row: Json -> Option<Row>, p: Row -> bool)
    requires forall x | row(x).Some? :: p(row(x).value)
    ensures ParseValue(data, path, row).Some? ==> forall u | u in ParseValue(data, path, row).value :: p(u)
  {
    SkipsOnlyFailing(data, path, row);
  }

  /** Every dict in `posts_1.json` yields a row: `parse_posts` skips only
      items that are not dicts. */
  lemma PostsOfDicts(data: Json)
    requires var v := SafeGetValue(data, ["posts_1.json", "media"], List([]));
      v.List? && forall i | 0 <= i < |v.items| :: v.items[i].Obj?
    ensures Posts(data).Some?
    ensures |Posts(data).value| == |SafeGetValue(data, ["posts_1.json", "media"], List([])).items|
  {
    var items := SafeGetValue(data, ["posts_1.json", "media"], List([])).items;
    SuccessesTotal(items, PostRow);
  }

  /** A list of viewed ads that are all dicts without `string_map_data`
      gives one default row per ad. */
  lemma PlainAdsAllDefault(data: Json, localIso: int -> Option<string>)
    requires var v := SafeGetValue(data, ["ads_viewed.json", "impressions_history_ads_seen"], List([]));
      v.List? && forall i | 0 <= i < |v.items| :: v.items[i].Obj? && !HasKey(v.items[i].fields, "string_map_data")
    ensures AdsViewed(data, localIso).Some?
    ensures var v := SafeGetValue(data, ["ads_viewed.json", "impressions_history_ads_seen"], List([]));
      |AdsViewed(data, localIso).value| == |v.items|
    ensures forall r | r in AdsViewed(data, localIso).value :: r == AdViewed(Str("Ad Viewed"), "")
  {
    var items := SafeGetValue(data, ["ads_viewed.json", "impressions_history_ads_seen"], List([])).items;
    var row := x => AdViewedRow(localIso, x);
    forall i | 0 <= i < |items| ensures row(items[i]) == Some(AdViewed(Str("Ad Viewed"), "")) {
      AdWithoutMapData(localIso, items[i]);
    }
    SuccessesTotal(items, row);
    SuccessesMembers(items, row);
  }

  /** `len()` of a looked-up number raises out of `parse_*`. */
  lemma NumberRaises(data: Json, path: seq<string>, row: Json -> Option<Row>, n: int)
    requires Walk(data, path) == Some(Int(n))
    ensures ParseValue(data, path, row).None?
  {
  }
}
