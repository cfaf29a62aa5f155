/** The blog detail page: it subscribes to one post, upper-cases its text
    fields and body on arrival, and shows a loading screen, "Post not found."
    or the post. */
module BlogDetails {
  import opened Text
  import opened Snapshot
  import opened Markup

  /** A stored post; `content` is the already-parsed body of its HTML. */
  datatype PostData = PostData(
    id: int,
    title: string,
    excerpt: string,
    content: seq<Node>,
    image: string,
    author: string,
    date: string,
    readTime: string,
    category: string)

  /** `{ ...data, title: data.title.toUpperCase(), … }`: five text fields
      upper-cased, the body converted, the rest spread over unchanged. The
      page never renders the converted body; it is kept in the state only. */
  function Uppercased(d: PostData): PostData {
    d.(title := Upper(d.title),
       excerpt := Upper(d.excerpt),
       content := ConvertBody(d.content),
       author := Upper(d.author),
       readTime := Upper(d.readTime),
       category := Upper(d.category))
  }

  /** The displayed post: the copied fields are the stored ones; each of the
      five upper-cased fields is as long as the stored one, holds no
      lower-case letter and differs from it only in letter case (which, by
      `Text.UpperOfUnique`, pins it to the stored field's upper case); and
      each body node is its upper-case copy, text node by text node. */
  lemma UppercasedSpec(d: PostData)
    ensures Uppercased(d).id == d.id && Uppercased(d).image == d.image && Uppercased(d).date == d.date
    ensures IsUpperOf(Uppercased(d).title, d.title)
    ensures IsUpperOf(Uppercased(d).excerpt, d.excerpt)
    ensures IsUpperOf(Uppercased(d).author, d.author)
    ensures IsUpperOf(Uppercased(d).readTime, d.readTime)
    ensures IsUpperOf(Uppercased(d).category, d.category)
    ensures |Uppercased(d).content| == |d.content|
    ensures forall i :: 0 <= i < |d.content| ==> UpperCopy(d.content[i], Uppercased(d).content[i])
    ensures forall i :: 0 <= i < |d.content| ==>
              SameShape(d.content[i], Uppercased(d).content[i]) && AllTextUpper(Uppercased(d).content[i])
    ensures TextOfAll(Uppercased(d).content) == Upper(TextOfAll(d.content))
  {
    UpperIsUpperOf(d.title);
    UpperIsUpperOf(d.excerpt);
    UpperIsUpperOf(d.author);
    UpperIsUpperOf(d.readTime);
    UpperIsUpperOf(d.category);
    ConvertBodySpec(d.content);
  }

  /** Converting a post a second time changes nothing. */
  lemma UppercasedIdempotent(d: PostData)
    ensures Uppercased(Uppercased(d)) == Uppercased(d)
  {
    UpperIdempotent(d.title);
    UpperIdempotent(d.excerpt);
    UpperIdempotent(d.author);
    UpperIdempotent(d.readTime);
    UpperIdempotent(d.category);
    ConvertBodySpec(d.content);
  }

  datatype DetailsState = DetailsState(loading: bool, post: Option<PostData>)

  const InitialDetails := DetailsState(true, None)

  /** The `onValue` callback: a truthy payload becomes the displayed post;
      loading ends whether or not there was data. */
  function OnPost(s: DetailsState, payload: Option<PostData>): (r: DetailsState)
    ensures !r.loading
    ensures payload.Some? ==> r.post == Some(Uppercased(payload.value))
    ensures payload.None? ==> r.post == s.post
  {
    DetailsState(false, match payload
      case None => s.post
      case Some(d) => Some(Uppercased(d)))
  }

  datatype Screen = Loading | NotFound | Showing(post: PostData)

  /** The page: "Loading..." first, then "Post not found." without a post,
      else the post. */
  function Render(s: DetailsState): Screen {
    if s.loading then Loading
    else match s.post
      case None => NotFound
      case Some(p) => Showing(p)
  }

  /** The first callback decides the screen: "Post not found." for a null
      payload, the converted post otherwise. */
  lemma FirstCallback(payload: Option<PostData>)
    ensures payload.None? ==> Render(OnPost(InitialDetails, payload)) == NotFound
    ensures payload.Some? ==> Render(OnPost(InitialDetails, payload)) == Showing(Uppercased(payload.value))
  {
  }

  /** A later null payload does not take a shown post away. */
  lemma NullKeepsPost(s: DetailsState)
    requires Render(s).Showing?
    ensures Render(OnPost(s, None)) == Render(s)
  {
  }

  /** The path subscribed to for the route parameter `id`; none when `id` is
      absent or empty (falsy). */
  function Subscription(id: Option<string>): (r: Option<string>)
    ensures r.Some? <==> id.Some? && id.value != ""
    ensures r.Some? ==> r.value == "blogs/posts/" + id.value
  {
    match id
    case Some(v) => if v != "" then Some("blogs/posts/" + v) else None
    case None => None
  }

  /** The subscribed path names its post: the id is recovered from the path,
      so different ids never share a subscription. */
  lemma SubscriptionNamesPost(a: Option<string>, b: Option<string>)
    ensures Subscription(a).Some? ==> Subscription(a).value[|"blogs/posts/"|..] == a.value
    ensures Subscription(a).Some? && Subscription(a) == Subscription(b) ==> a == b
  {
    if Subscription(a).Some? && Subscription(a) == Subscription(b) {
      var p := "blogs/posts/";
      assert (p + a.value)[|p|..] == a.value;
      assert (p + b.value)[|p|..] == b.value;
    }
  }

  /** Without a route `id` nothing is subscribed, no callback can run, and the
      page stays on "Loading...". */
  lemma NoIdStaysLoading(id: Option<string>)
    requires id.None? || id == Some("")
    ensures Subscription(id).None?
    ensures Render(InitialDetails) == Loading
  {
  }
}
