/** The TikTok record mappers. Each `parse_*` looks up one list with
    `safe_get(..., default=[])` and turns every item into one row in a list
    comprehension, so an item that lacks a field makes the whole call
    raise (`None` here). */
module TikTok {
  import opened Json
  import opened Text
  import opened Seqs
  import opened Records

  /** `[row(x) for x in safe_get(data, *path, default=[])]`. */
  function ParseWith(data: Json, path: seq<string>, row: Json -> Option<Row>): Option<seq<Row>> {
    match Items(SafeGetValue(data, path, List([])))
    case None => None
    case Some(items) => AllOf(items, row)
  }

  /** A missing path yields no rows (the default `[]`). */
  lemma MissingPathNoRows(data: Json, path: seq<string>, row: Json -> Option<Row>)
    requires Walk(data, path).None?
    ensures ParseWith(data, path, row) == Some([])
  {
  }

  /** Exactly one row per listed item, each the item's own row; the call
      raises exactly when the value is not iterable or some item fails. */
  lemma OneRowPerItem(data: Json, path: seq<string>, row: Json -> Option<Row>)
    ensures ParseWith(data, path, row).Some? ==>
      && Items(SafeGetValue(data, path, List([]))).Some?
      && var items := Items(SafeGetValue(data, path, List([]))).value;
      && |ParseWith(data, path, row).value| == |items|
      && forall i | 0 <= i < |items| :: row(items[i]) == Some(ParseWith(data, path, row).value[i])
    ensures ParseWith(data, path, row).None? <==>
      || Items(SafeGetValue(data, path, List([]))).None?
      || exists i | 0 <= i < |Items(SafeGetValue(data, path, List([]))).value| ::
           row(Items(SafeGetValue(data, path, List([]))).value[i]).None?
  {
    var items := Items(SafeGetValue(data, path, List([])));
    if items.Some? {
      AllOfFails(items.value, row);
    }
  }

  /** `item[k]` succeeds: the item is a dict holding `k`. */
  predicate Has(item: Json, k: string) {
    item.Obj? && HasKey(item.fields, k)
  }

  /** `item[k]` where it succeeds. */
  function At(item: Json, k: string): Json
    requires Has(item, k)
  {
    Lookup(item.fields, k).value
  }

  function HashtagRow(ht: Json): (r: Option<Row>)
    ensures r.Some? <==> (Has(ht, "HashtagName") && Has(ht, "HashtagLink"))
    ensures r.Some? ==> r.value.dataType == "tiktok_hashtag" && r.value.action == "HashtagUse" && r.value.date == Str("")
  {
    if (Has(ht, "HashtagName") && Has(ht, "HashtagLink")) then
      Some(Row("tiktok_hashtag", "HashtagUse", At(ht, "HashtagName"), At(ht, "HashtagLink"), Str(""), []))
    else None
  }

  function LoginRow(login: Json): (r: Option<Row>)
    ensures r.Some? <==> (Has(login, "DeviceModel") && Has(login, "DeviceSystem") && Has(login, "Date") && Has(login, "IP") && Has(login, "NetworkType") && Has(login, "Carrier"))
    ensures r.Some? ==> r.value.dataType == "tiktok_login" && r.value.action == "Login" && r.value.url == Str("")
    ensures r.Some? ==> r.value.title.Str? && StartsWith(r.value.title.s, "Login from ")
  {
    if (Has(login, "DeviceModel") && Has(login, "DeviceSystem") && Has(login, "Date") && Has(login, "IP") && Has(login, "NetworkType") && Has(login, "Carrier")) then
      var title := "Login from " + PyStr(At(login, "DeviceModel")) + " (" + PyStr(At(login, "DeviceSystem")) + ")";
      assert title[..|"Login from "|] == "Login from ";
      Some(Row("tiktok_login", "Login", Str(title), Str(""), At(login, "Date"),
        [("IP", At(login, "IP")), ("NetworkType", At(login, "NetworkType")), ("Carrier", At(login, "Carrier"))]))
    else None
  }

  function VideoRow(video: Json): (r: Option<Row>)
    ensures r.Some? <==> (Has(video, "Link") && Has(video, "Date"))
    ensures r.Some? ==> r.value.dataType == "tiktok_video_view" && r.value.action == "VideoView"
    ensures r.Some? ==> r.value.title == Str("Watched video") && r.value.url == At(video, "Link")
  {
    if (Has(video, "Link") && Has(video, "Date")) then
      Some(Row("tiktok_video_view", "VideoView", Str("Watched video"), At(video, "Link"), At(video, "Date"), []))
    else None
  }

  function ShareRow(share: Json): (r: Option<Row>)
    ensures r.Some? <==> (Has(share, "SharedContent") && Has(share, "Link") && Has(share, "Date") && Has(share, "Method"))
    ensures r.Some? ==> r.value.dataType == "tiktok_share" && r.value.action == "Share"
    ensures r.Some? ==> r.value.details == [("Method", At(share, "Method"))]
  {
    if (Has(share, "SharedContent") && Has(share, "Link") && Has(share, "Date") && Has(share, "Method")) then
      Some(Row("tiktok_share", "Share", At(share, "SharedContent"), At(share, "Link"), At(share, "Date"),
        [("Method", At(share, "Method"))]))
    else None
  }

  function LikeRow(like: Json): (r: Option<Row>)
    ensures r.Some? <==> (Has(like, "Link") && Has(like, "Date"))
    ensures r.Some? ==> r.value.dataType == "tiktok_like" && r.value.action == "Like" && r.value.title == Str("Liked video")
  {
    if (Has(like, "Link") && Has(like, "Date")) then
      Some(Row("tiktok_like", "Like", Str("Liked video"), At(like, "Link"), At(like, "Date"), []))
    else None
  }

  function SearchRow(search: Json): (r: Option<Row>)
    ensures r.Some? <==> (Has(search, "SearchTerm") && Has(search, "Date"))
    ensures r.Some? ==> r.value.dataType == "tiktok_search" && r.value.action == "Search" && r.value.url == Str("")
  {
    if (Has(search, "SearchTerm") && Has(search, "Date")) then
      Some(Row("tiktok_search", "Search", At(search, "SearchTerm"), Str(""), At(search, "Date"), []))
    else None
  }

  function AdRow(activity: Json): (r: Option<Row>)
    ensures r.Some? <==> (Has(activity, "Event") && Has(activity, "TimeStamp") && Has(activity, "Source"))
    ensures r.Some? ==> r.value.dataType == "tiktok_ad_activity" && r.value.action == "AdActivity" && r.value.url == Str("")
    ensures r.Some? ==> r.value.date == At(activity, "TimeStamp")
  {
    if (Has(activity, "Event") && Has(activity, "TimeStamp") && Has(activity, "Source")) then
      Some(Row("tiktok_ad_activity", "AdActivity", At(activity, "Event"), Str(""), At(activity, "TimeStamp"),
        [("Source", At(activity, "Source"))]))
    else None
  }

  function CommentRow(comment: Json): (r: Option<Row>)
    ensures r.Some? <==> (Has(comment, "Comment") && Has(comment, "Url") && Has(comment, "Date") && Has(comment, "Photo"))
    ensures r.Some? ==> r.value.dataType == "tiktok_comment" && r.value.action == "Comment"
    ensures r.Some? ==> r.value.details == [("Photo", At(comment, "Photo"))]
  {
    if (Has(comment, "Comment") && Has(comment, "Url") && Has(comment, "Date") && Has(comment, "Photo")) then
      Some(Row("tiktok_comment", "Comment", At(comment, "Comment"), At(comment, "Url"), At(comment, "Date"),
        [("Photo", At(comment, "Photo"))]))
    else None
  }

  const HashtagPath: seq<string> := ["Activity", "Hashtag", "HashtagList"]
  const LoginPath: seq<string> := ["Activity", "Login History", "LoginHistoryList"]
  const VideoPath: seq<string> := ["Activity", "Video Browsing History", "VideoList"]
  const SharePath: seq<string> := ["Activity", "Share History", "ShareHistoryList"]
  const LikePath: seq<string> := ["Activity", "Like List", "ItemFavoriteList"]
  const SearchPath: seq<string> := ["Activity", "Search History", "SearchList"]
  const AdPath: seq<string> := ["Ads and data", "Ad Interests", "AdInterestCategories"]
  const CommentPath: seq<string> := ["Comment", "Comments", "CommentsList"]

  /** `parse_hashtags`: every row is a hashtag use with an empty `Date`, and
      an export without the list gives no rows. */
  function ParseHashtags(data: Json): (r: Option<seq<Row>>)
    ensures Walk(data, HashtagPath).None? ==> r == Some([])
    ensures r.Some? ==> forall u | u in r.value :: u.dataType == "tiktok_hashtag" && u.action == "HashtagUse" && u.date == Str("")
  {
    var path, row := HashtagPath, HashtagRow;
    AllRows(data, path, row, (u: Row) => u.dataType == "tiktok_hashtag" && u.action == "HashtagUse" && u.date == Str(""));
    ParseWith(data, path, row)
  }

  /** `parse_login_history`: every row is a login whose title names the
      device, and an export without the list gives no rows. */
  function ParseLoginHistory(data: Json): (r: Option<seq<Row>>)
    ensures Walk(data, LoginPath).None? ==> r == Some([])
    ensures r.Some? ==> forall u | u in r.value :: u.dataType == "tiktok_login" && u.action == "Login" && u.title.Str? && StartsWith(u.title.s, "Login from ")
  {
    var path, row := LoginPath, LoginRow;
    AllRows(data, path, row, (u: Row) => u.dataType == "tiktok_login" && u.action == "Login" && u.title.Str? && StartsWith(u.title.s, "Login from "));
    ParseWith(data, path, row)
  }

  /** `parse_video_history`: every row is a watched video, and an export
      without the list gives no rows. */
  function ParseVideoHistory(data: Json): (r: Option<seq<Row>>)
    ensures Walk(data, VideoPath).None? ==> r == Some([])
    ensures r.Some? ==> forall u | u in r.value :: u.dataType == "tiktok_video_view" && u.action == "VideoView" && u.title == Str("Watched video")
  {
    var path, row := VideoPath, VideoRow;
    AllRows(data, path, row, (u: Row) => u.dataType == "tiktok_video_view" && u.action == "VideoView" && u.title == Str("Watched video"));
    ParseWith(data, path, row)
  }

  /** `parse_share_history`: every row is a share, and an export without the
      list gives no rows. */
  function ParseShareHistory(data: Json): (r: Option<seq<Row>>)
    ensures Walk(data, SharePath).None? ==> r == Some([])
    ensures r.Some? ==> forall u | u in r.value :: u.dataType == "tiktok_share" && u.action == "Share"
  {
    var path, row := SharePath, ShareRow;
    AllRows(data, path, row, (u: Row) => u.dataType == "tiktok_share" && u.action == "Share");
    ParseWith(data, path, row)
  }

  /** `parse_like_history`: every row is a liked video, and an export
      without the list gives no rows. */
  function ParseLikeHistory(data: Json): (r: Option<seq<Row>>)
    ensures Walk(data, LikePath).None? ==> r == Some([])
    ensures r.Some? ==> forall u | u in r.value :: u.dataType == "tiktok_like" && u.action == "Like" && u.title == Str("Liked video")
  {
    var path, row := LikePath, LikeRow;
    AllRows(data, path, row, (u: Row) => u.dataType == "tiktok_like" && u.action == "Like" && u.title == Str("Liked video"));
    ParseWith(data, path, row)
  }

  /** `parse_search_history`: every row is a search without a URL, and an
      export without the list gives no rows. */
  function ParseSearchHistory(data: Json): (r: Option<seq<Row>>)
    ensures Walk(data, SearchPath).None? ==> r == Some([])
    ensures r.Some? ==> forall u | u in r.value :: u.dataType == "tiktok_search" && u.action == "Search" && u.url == Str("")
  {
    var path, row := SearchPath, SearchRow;
    AllRows(data, path, row, (u: Row) => u.dataType == "tiktok_search" && u.action == "Search" && u.url == Str(""));
    ParseWith(data, path, row)
  }

  /** `parse_ad_info`: every row is an ad activity without a URL, and an
      export without the list gives no rows. */
  function ParseAdInfo(data: Json): (r: Option<seq<Row>>)
    ensures Walk(data, AdPath).None? ==> r == Some([])
    ensures r.Some? ==> forall u | u in r.value :: u.dataType == "tiktok_ad_activity" && u.action == "AdActivity" && u.url == Str("")
  {
    var path, row := AdPath, AdRow;
    AllRows(data, path, row, (u: Row) => u.dataType == "tiktok_ad_activity" && u.action == "AdActivity" && u.url == Str(""));
    ParseWith(data, path, row)
  }

  /** `parse_comments`: every row is a comment, and an export without the
      list gives no rows. */
  function ParseComments(data: Json): (r: Option<seq<Row>>)
    ensures Walk(data, CommentPath).None? ==> r == Some([])
    ensures r.Some? ==> forall u | u in r.value :: u.dataType == "tiktok_comment" && u.action == "Comment"
  {
    var path, row := CommentPath, CommentRow;
    AllRows(data, path, row, (u: Row) => u.dataType == "tiktok_comment" && u.action == "Comment");
    ParseWith(data, path, row)
  }

  /** A property every row the mapper can build has holds of every row
      the parse returns. */
  lemma {:induction false} AllRows(data: Json, path: seq<string>, row: Json -> Option<Row>, p: Row -> bool)
    requires forall x | row(x).Some? :: p(row(x).value)
    ensures ParseWith(data, path, row).Some? ==> forall r | r in ParseWith(data, path, row).value :: p(r)
  {
    OneRowPerItem(data, path, row);
    if ParseWith(data, path, row).Some? {
      var rows := ParseWith(data, path, row).value;
      var items := Items(SafeGetValue(data, path, List([]))).value;
      forall r | r in rows ensures p(r) {
        var i :| 0 <= i < |rows| && rows[i] == r;
        assert row(items[i]) == Some(r);
      }
    }
  }

  /** One hashtag lacking `HashtagLink` makes `parse_hashtags` raise. */
  lemma HashtagWithoutLinkRaises()
    ensures ParseHashtags(Obj([("Activity", Obj([("Hashtag", Obj([("HashtagList",
      List([Obj([("HashtagName", Str("dafny"))])]))]))]))])).None?
  {
    var item := Obj([("HashtagName", Str("dafny"))]);
    var list := List([item]);
    var data := Obj([("Activity", Obj([("Hashtag", Obj([("HashtagList", list)]))]))]);
    assert !HasKey(item.fields, "HashtagLink");
    assert !(Has(item, "HashtagName") && Has(item, "HashtagLink"));
    var hashtag := Obj([("HashtagList", list)]);
    var activity := Obj([("Hashtag", hashtag)]);
    assert Lookup(data.fields, "Activity") == Some(activity);
    assert Lookup(activity.fields, "Hashtag") == Some(hashtag);
    assert Lookup(hashtag.fields, "HashtagList") == Some(list);
    assert HashtagPath[1..][1..][1..] == [];
    assert Walk(data, HashtagPath) == Some(list);
    OneRowPerItem(data, HashtagPath, HashtagRow);
    assert HashtagRow(Items(SafeGetValue(data, HashtagPath, List([]))).value[0]).None?;
  }
}
