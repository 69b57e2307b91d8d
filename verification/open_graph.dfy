/** `mergeOpenGraph`: a page's Open Graph metadata laid over the site
    defaults with object spread, except that `images` falls back to the
    default banner whenever the page's own `images` is falsy. */
module OpenGraph {
  import opened Wrappers
  import opened Json

  /** A property value. Spread copies a property that is present but set
      to `undefined`, so that case is kept apart from a missing key. */
  datatype Prop = Undefined | Defined(v: Json)

  /** Open Graph metadata: property name to value. */
  type Meta = map<string, Prop>

  predicate PropTruthy(p: Prop) {
    p.Defined? && Truthy(p.v)
  }

  const ImagesKey := "images"
  const SiteName := "The Strivers' Network"
  const Description :=
    "The Strivers’ Network (TSN) is a youth-led college access program striving to make the world’s leading universities more accessible to Sri Lanka’s underserved high-achievers."

  /** The default image list: one banner under the server's own URL. */
  function DefaultImages(serverUrl: string): (p: Prop)
    ensures PropTruthy(p)
  {
    Defined(JArr([JObj([Field("url", JStr(serverUrl + "/banner.webp"))])]))
  }

  /** The site-wide defaults; `serverUrl` is `getServerSideURL()`. */
  function Defaults(serverUrl: string): (m: Meta)
    ensures m.Keys == {"type", "description", ImagesKey, "siteName", "title"}
    ensures m[ImagesKey] == DefaultImages(serverUrl)
  {
    map["type" := Defined(JStr("website")),
        "description" := Defined(JStr(Description)),
        ImagesKey := DefaultImages(serverUrl),
        "siteName" := Defined(JStr(SiteName)),
        "title" := Defined(JStr(SiteName))]
  }

  /** `og?.images`: `undefined` when `og` itself is. */
  function ImagesOf(og: Option<Meta>): Prop {
    if og.Some? && ImagesKey in og.value then og.value[ImagesKey] else Undefined
  }

  /** `{...defaults, ...og, images: og?.images ? og.images : defaults.images}`. */
  function Merge(serverUrl: string, og: Option<Meta>): (r: Meta)
    ensures og.None? ==> r == Defaults(serverUrl)
    ensures og.Some? ==> r.Keys == Defaults(serverUrl).Keys + og.value.Keys
    ensures og.Some? ==> forall k :: k in og.value && k != ImagesKey ==> r[k] == og.value[k]
    ensures forall k :: k in Defaults(serverUrl) && (og.None? || k !in og.value) ==> r[k] == Defaults(serverUrl)[k]
    ensures r[ImagesKey] == if PropTruthy(ImagesOf(og)) then ImagesOf(og) else DefaultImages(serverUrl)
    ensures PropTruthy(r[ImagesKey])
  {
    var spread := if og.Some? then Defaults(serverUrl) + og.value else Defaults(serverUrl);
    var images := if PropTruthy(ImagesOf(og)) then ImagesOf(og) else DefaultImages(serverUrl);
    spread[ImagesKey := images]
  }

  /** Merging an already merged record changes nothing. */
  lemma MergeIdempotent(serverUrl: string, og: Option<Meta>)
    ensures Merge(serverUrl, Some(Merge(serverUrl, og))) == Merge(serverUrl, og)
  {
    var once := Merge(serverUrl, og);
    var twice := Merge(serverUrl, Some(once));
    assert twice.Keys == once.Keys;
    forall k | k in once
      ensures twice[k] == once[k]
    {
    }
  }

  /** A page's empty image list is kept: an array is truthy even when empty. */
  lemma EmptyImagesKept(serverUrl: string, og: Meta)
    requires ImagesKey in og && og[ImagesKey] == Defined(JArr([]))
    ensures Merge(serverUrl, Some(og))[ImagesKey] == Defined(JArr([]))
  {
  }

  /** A page that sets `images` to `undefined`, `null` or another falsy
      value still gets the banner, while every other key it sets wins. */
  lemma FalsyImagesFallBack(serverUrl: string, og: Meta)
    requires ImagesKey in og && !PropTruthy(og[ImagesKey])
    ensures Merge(serverUrl, Some(og))[ImagesKey] == DefaultImages(serverUrl)
  {
  }
}
