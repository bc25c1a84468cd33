/**
 * The gif detail page (pages/appdetail.js): the strings it builds for its
 * `<head>`, the like/unlike/sign-in decision of the heart button, and the
 * props `getInitialProps` assembles from the API's answers.
 *
 * The API, GitHub and cookie lookups are not modelled: their answers are
 * parameters, and the calls made are returned as values.
 */
module AppDetail {
  import opened Wrappers

  /** A JavaScript value held in a field of a record; `Null` stands for a missing field too. */
  datatype Value = Null | Text(s: string) | Number(n: int) | Flag(b: bool) | List(items: seq<Value>)

  /** JavaScript truthiness. */
  function Truthy(v: Value): (truthy: bool)
    ensures !truthy <==> v == Null || v == Text("") || v == Number(0) || v == Flag(false)
  {
    match v
    case Null => false
    case Text(s) => s != ""
    case Number(n) => n != 0
    case Flag(b) => b
    case List(_) => true
  }

  /** A record of named fields, such as the gif the API returns. */
  type Record = map<string, Value>

  /** `record.field`: missing fields read as `Null`. */
  function Field(r: Record, k: string): Value {
    if k in r then r[k] else Null
  }

  // ----- <head> strings -----

  const TitleSeparator := " by @"

  /** The page title: the gif's name, then ` by @`, then the author. */
  function GetTitle(name: string, username: string): (title: string)
    ensures |title| == |name| + |TitleSeparator| + |username|
    ensures title[..|name|] == name && title[|title| - |username|..] == username
    ensures title[|name|..|name| + |TitleSeparator|] == TitleSeparator
  {
    name + TitleSeparator + username
  }

  /** For one author, the title determines the name; for one name, it determines the author. */
  lemma TitleInjective(n1: string, u1: string, n2: string, u2: string)
    requires GetTitle(n1, u1) == GetTitle(n2, u2)
    ensures u1 == u2 ==> n1 == n2
    ensures n1 == n2 ==> u1 == u2
  {
  }

  /** The two thumbnail bases, secure and unsecure, taken from the environment. */
  datatype Env = Env(thumbs: string, thumbsUnsecure: string)

  const ImageSuffix := "-size_restricted.gif"
  const VideoSuffix := "-mobile.mp4"

  /** A meta URL: the base, then the gif id, then the suffix. */
  function MetaUrl(base: string, id: string, suffix: string): (url: string)
    ensures |url| == |base| + |id| + |suffix|
    ensures url[..|base|] == base && url[|base|..|base| + |id|] == id && url[|base| + |id|..] == suffix
  {
    base + id + suffix
  }

  /** The id a meta URL was built from, if `url` has the given base and suffix. */
  function MetaId(base: string, suffix: string, url: string): Option<string> {
    if |base| + |suffix| <= |url| && url[..|base|] == base && url[|url| - |suffix|..] == suffix
    then Some(url[|base|..|url| - |suffix|])
    else None
  }

  /** Building a meta URL and reading its id back gives the id. */
  lemma MetaIdRoundTrip(base: string, id: string, suffix: string)
    ensures MetaId(base, suffix, MetaUrl(base, id, suffix)) == Some(id)
  {
  }

  function GetImageMeta(env: Env, id: string): (url: string)
    ensures MetaId(env.thumbs, ImageSuffix, url) == Some(id)
  {
    MetaUrl(env.thumbs, id, ImageSuffix)
  }

  function GetUnsecureImageMeta(env: Env, id: string): (url: string)
    ensures MetaId(env.thumbsUnsecure, ImageSuffix, url) == Some(id)
  {
    MetaUrl(env.thumbsUnsecure, id, ImageSuffix)
  }

  function GetVideoMeta(env: Env, id: string): (url: string)
    ensures MetaId(env.thumbs, VideoSuffix, url) == Some(id)
  {
    MetaUrl(env.thumbs, id, VideoSuffix)
  }

  function GetUnsecureVideoMeta(env: Env, id: string): (url: string)
    ensures MetaId(env.thumbsUnsecure, VideoSuffix, url) == Some(id)
  {
    MetaUrl(env.thumbsUnsecure, id, VideoSuffix)
  }

  /**
   * Different gifs get different meta URLs, and an image URL is never a video
   * URL, whatever the bases: one ends in `.gif`, the other in `.mp4`.
   */
  lemma MetaUrlsDistinct(env: Env, a: string, b: string)
    ensures a != b ==> GetImageMeta(env, a) != GetImageMeta(env, b) && GetVideoMeta(env, a) != GetVideoMeta(env, b)
    ensures a != b ==> GetUnsecureImageMeta(env, a) != GetUnsecureImageMeta(env, b)
    ensures a != b ==> GetUnsecureVideoMeta(env, a) != GetUnsecureVideoMeta(env, b)
    ensures forall imageBase, videoBase ::
      MetaUrl(imageBase, a, ImageSuffix) != MetaUrl(videoBase, b, VideoSuffix)
  {
    forall imageBase, videoBase
      ensures MetaUrl(imageBase, a, ImageSuffix) != MetaUrl(videoBase, b, VideoSuffix)
    {
      var i := MetaUrl(imageBase, a, ImageSuffix);
      var v := MetaUrl(videoBase, b, VideoSuffix);
      assert i[|i| - 1] == ImageSuffix[|ImageSuffix| - 1] == 'f';
      assert v[|v| - 1] == VideoSuffix[|VideoSuffix| - 1] == '4';
    }
  }

  /** The secure and unsecure URLs differ only in their base: they coincide when the bases do. */
  lemma SecureUnsecureDifferOnlyInBase(env: Env, id: string)
    ensures env.thumbs == env.thumbsUnsecure ==>
      GetImageMeta(env, id) == GetUnsecureImageMeta(env, id) && GetVideoMeta(env, id) == GetUnsecureVideoMeta(env, id)
    ensures env.thumbs != env.thumbsUnsecure && |env.thumbs| == |env.thumbsUnsecure| ==>
      GetImageMeta(env, id) != GetUnsecureImageMeta(env, id) && GetVideoMeta(env, id) != GetUnsecureVideoMeta(env, id)
  {
  }

  // ----- keywords -----

  /** `category.join(', ')`. */
  function JoinKeywords(categories: seq<string>): (content: string)
    ensures categories == [] ==> content == ""
    ensures categories != [] ==> |categories[0]| <= |content| && content[..|categories[0]|] == categories[0]
    decreases |categories|
  {
    if categories == [] then ""
    else if |categories| == 1 then categories[0]
    else categories[0] + ", " + JoinKeywords(categories[1..])
  }

  /** Splits keywords content back into categories at each `,`, dropping one following space. */
  function SplitKeywords(s: string): (parts: seq<string>)
    ensures |parts| > 0
    decreases |s|
  {
    if s == [] then [""]
    else if s[0] == ',' then [""] + SplitKeywords(if |s| > 1 && s[1] == ' ' then s[2..] else s[1..])
    else
      var rest := SplitKeywords(s[1..]);
      [[s[0]] + rest[0]] + rest[1..]
  }

  lemma {:induction false} SplitPlain(c: string)
    requires ',' !in c
    ensures SplitKeywords(c) == [c]
    decreases |c|
  {
    if c != [] {
      SplitPlain(c[1..]);
      assert [c[0]] + c[1..] == c;
    }
  }

  lemma {:induction false} SplitFirst(c: string, t: string)
    requires ',' !in c
    ensures SplitKeywords(c + ", " + t) == [c] + SplitKeywords(t)
    decreases |c|
  {
    var s := c + ", " + t;
    if c == [] {
      assert s == ", " + t && s[2..] == t;
    } else {
      assert s[1..] == c[1..] + ", " + t;
      SplitFirst(c[1..], t);
      assert [c[0]] + c[1..] == c;
    }
  }

  /**
   * The keywords content lists the categories in order: splitting it gives them
   * back, provided there is at least one and none contains a comma.
   */
  lemma {:induction false} KeywordsRoundTrip(categories: seq<string>)
    requires categories != []
    requires forall i :: 0 <= i < |categories| ==> ',' !in categories[i]
    ensures SplitKeywords(JoinKeywords(categories)) == categories
    decreases |categories|
  {
    if |categories| == 1 {
      SplitPlain(categories[0]);
    } else {
      KeywordsRoundTrip(categories[1..]);
      SplitFirst(categories[0], JoinKeywords(categories[1..]));
      assert [categories[0]] + categories[1..] == categories;
    }
  }

  /** The content is as long as the categories plus two characters per separator. */
  lemma {:induction false} KeywordsLength(categories: seq<string>)
    requires categories != []
    ensures |JoinKeywords(categories)| == TotalLength(categories) + 2 * (|categories| - 1)
    decreases |categories|
  {
    if |categories| > 1 {
      KeywordsLength(categories[1..]);
    }
  }

  function TotalLength(strings: seq<string>): nat
    decreases |strings|
  {
    if strings == [] then 0 else |strings[0]| + TotalLength(strings[1..])
  }

  // ----- the heart button -----

  /** The signed-in user, as read from the cookie. */
  datatype User = User(nickname: string)

  /** What a click on the heart does: one API call, or a redirect to the sign-in page. */
  datatype LoveAction =
    | PutLike(nickname: string, gifId: Value)
    | PutUnlike(nickname: string, gifId: Value)
    | SignIn(pathname: string, next: string)

  const SignInPath := "/sign-in"

  /**
   * `updateLoveAsync`: a signed-in user likes a gif not yet liked and unlikes one
   * already liked; without a user, the page goes to the sign-in page with the
   * current path as `next`, and nothing is liked or unliked.
   */
  function UpdateLove(user: Option<User>, gifId: Value, alreadyLiked: bool, pathname: string): (a: LoveAction)
    ensures a.PutLike? <==> user.Some? && !alreadyLiked
    ensures a.PutUnlike? <==> user.Some? && alreadyLiked
    ensures a.SignIn? <==> user.None?
    ensures a.SignIn? ==> a.pathname == SignInPath && a.next == pathname
    ensures !a.SignIn? ==> a.nickname == user.value.nickname && a.gifId == gifId
  {
    match user
    case Some(u) => if !alreadyLiked then PutLike(u.nickname, gifId) else PutUnlike(u.nickname, gifId)
    case None => SignIn(SignInPath, pathname)
  }

  // ----- getInitialProps -----

  /** The route's query: `/:username/:slug`. */
  datatype Query = Query(slug: string, username: string)

  /** The calls `getInitialProps` makes on the API and GitHub. */
  datatype ApiCall =
    | GetGifBySlug(slug: string)
    | GetGifInfo(gifId: Value)
    | PutIncrementNumberOfView(gifId: Value)
    | GetStargazersCount(githubLink: Value)
    | GetUserLikes(nickname: string)

  /** The fields `getInitialProps` writes over the gif's own. */
  const OverriddenKeys: set<string> := {"username", "originalUrl", "width", "height", "stars", "checked"}

  function HasGithubLink(gif: Record): (has: bool)
    ensures has <==> "githubLink" in gif && Truthy(gif["githubLink"])
  {
    Truthy(Field(gif, "githubLink"))
  }

  /** The calls made, in order: the star count only for a gif with a GitHub link, the likes only for a user. */
  function InitialPropsCalls(query: Query, gif: Record, user: Option<User>): (calls: seq<ApiCall>)
    ensures |calls| == 3 + (if HasGithubLink(gif) then 1 else 0) + (if user.Some? then 1 else 0)
    ensures calls[..3] == [GetGifBySlug(query.slug), GetGifInfo(Field(gif, "id")), PutIncrementNumberOfView(Field(gif, "id"))]
    ensures HasGithubLink(gif) <==> GetStargazersCount(Field(gif, "githubLink")) in calls
    ensures HasGithubLink(gif) ==> calls[3] == GetStargazersCount(Field(gif, "githubLink"))
    ensures user.Some? <==> GetUserLikes(user.GetOr(User("")).nickname) in calls
    ensures user.Some? ==> calls[|calls| - 1] == GetUserLikes(user.value.nickname)
  {
    var id := Field(gif, "id");
    [GetGifBySlug(query.slug), GetGifInfo(id), PutIncrementNumberOfView(id)]
    + (if HasGithubLink(gif) then [GetStargazersCount(Field(gif, "githubLink"))] else [])
    + (match user case Some(u) => [GetUserLikes(u.nickname)] case None => [])
  }

  /**
   * The props of the page: the gif's fields, with the query's `username`, the
   * request URL, the size, the star count and `checked` written over them.
   * `fetchedStars` is GitHub's answer and `userLikes` the API's list of the
   * user's liked gifs (`None` for a `null` or `undefined` answer).
   */
  function InitialProps(query: Query, gif: Record, originalUrl: string, width: Value, height: Value,
                        fetchedStars: Value, user: Option<User>, userLikes: Option<seq<Value>>): (props: Record)
    ensures props.Keys == gif.Keys + OverriddenKeys
    ensures forall k :: k in gif && k !in OverriddenKeys ==> props[k] == gif[k]
    ensures props["username"] == Text(query.username)
    ensures props["originalUrl"] == Text(originalUrl) && props["width"] == width && props["height"] == height
    ensures props["stars"] == if HasGithubLink(gif) then fetchedStars else Number(0)
    ensures props["checked"] == Flag(user.Some? && userLikes.Some? && Field(gif, "id") in userLikes.value)
  {
    var stars := if HasGithubLink(gif) then fetchedStars else Number(0);
    var likes := if user.Some? then userLikes else Some([]);
    gif + map[
      "username" := Text(query.username),
      "originalUrl" := Text(originalUrl),
      "width" := width,
      "height" := height,
      "stars" := stars,
      "checked" := Flag(likes.Some? && Field(gif, "id") in likes.value)
    ]
  }

  /**
   * On the detail page, a signed-in user's click on the heart unlikes the gif
   * exactly when it is in their likes and likes it otherwise; without a user,
   * `checked` is false and the click goes to sign-in.
   */
  lemma HeartFollowsLikes(query: Query, gif: Record, originalUrl: string, width: Value, height: Value,
                          fetchedStars: Value, user: Option<User>, likes: seq<Value>, pathname: string)
    ensures var props := InitialProps(query, gif, originalUrl, width, height, fetchedStars, user, Some(likes));
      var a := UpdateLove(user, Field(props, "id"), props["checked"].b, pathname);
      && (user.Some? && "id" in gif ==> (a.PutUnlike? <==> gif["id"] in likes) && (a.PutLike? <==> gif["id"] !in likes))
      && (user.None? ==> props["checked"] == Flag(false) && a == SignIn(SignInPath, pathname))
  {
  }
}
