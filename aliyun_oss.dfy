/** `AliyunOssBucket`: the header signature (version 1) of Alibaba Cloud OSS,
    the paginated object listing, and the status codes that count as success
    for upload, download and delete. HMAC-SHA1 and Base64 are parameters;
    HTTP responses are inputs. */
module AliyunOss {
  import opened Common

  datatype BucketConfig = BucketConfig(host: string, bucket: string, accessKeyId: string, accessKeySecret: string)

  /** The two foreign primitives the signature uses: HMAC-SHA1 (key, message)
      and Base64 encoding. */
  datatype Crypto = Crypto(hmacSha1: (string, string) -> Bytes, b64encode: Bytes -> string)

  // ---------------------------------------------------------------------------
  // make_auth
  // ---------------------------------------------------------------------------

  /** The `auth_info` dict a request passes to `make_auth`. */
  type AuthInfo = map<string, string>

  /** `f'{auth_info.get("verb")}'`: a missing verb prints as "None". */
  function Verb(info: AuthInfo): string
  {
    if "verb" in info then info["verb"] else "None"
  }

  /** `auth_info.get(name) or default`: a missing or empty value gives the default. */
  function FieldOr(info: AuthInfo, name: string, default: string): string
  {
    if name in info && info[name] != "" then info[name] else default
  }

  /** The string to sign: verb, Content-MD5, Content-Type and date on lines of
      their own, then the canonicalized OSS headers immediately followed by the
      canonicalized resource (by default the bucket root `/bucket/`). */
  function StringToSign(bucket: string, info: AuthInfo, date: string): string
  {
    Verb(info) + "\n"
    + FieldOr(info, "content-md5", "") + "\n"
    + FieldOr(info, "content-type", "") + "\n"
    + date + "\n"
    + FieldOr(info, "canonicalized_oss_headers", "")
    + FieldOr(info, "canonicalized_resource", "/" + bucket + "/")
  }

  function Signature(cfg: BucketConfig, info: AuthInfo, date: string, crypto: Crypto): string
  {
    crypto.b64encode(crypto.hmacSha1(cfg.accessKeySecret, StringToSign(cfg.bucket, info, date)))
  }

  /** `make_auth`: the `Authorization` header value. */
  function MakeAuth(cfg: BucketConfig, info: AuthInfo, date: string, crypto: Crypto): string
  {
    "OSS " + cfg.accessKeyId + ":" + Signature(cfg, info, date, crypto)
  }

  /** `s` cut at the first `c`: what comes before it and what comes after it. */
  function SplitOn(s: string, c: char): (string, string)
  {
    if s == [] then ("", "")
    else if s[0] == c then ("", s[1..])
    else
      var rest := SplitOn(s[1..], c);
      ([s[0]] + rest.0, rest.1)
  }

  lemma {:induction false} SplitOnJoin(a: string, c: char, b: string)
    requires c !in a
    ensures SplitOn(a + [c] + b, c) == (a, b)
  {
    if a == [] {
      assert a + [c] + b == [c] + b;
      assert ([c] + b)[0] == c && ([c] + b)[1..] == b;
    } else {
      assert (a + [c] + b)[0] == a[0] != c;
      assert (a + [c] + b)[1..] == a[1..] + [c] + b;
      SplitOnJoin(a[1..], c, b);
      assert [a[0]] + a[1..] == a;
    }
  }

  /** The string to sign reads back, line by line, as the verb, Content-MD5,
      Content-Type and date, followed by headers and resource. */
  lemma StringToSignFields(bucket: string, info: AuthInfo, date: string)
    requires '\n' !in Verb(info) && '\n' !in date
    requires '\n' !in FieldOr(info, "content-md5", "") && '\n' !in FieldOr(info, "content-type", "")
    ensures var l1 := SplitOn(StringToSign(bucket, info, date), '\n');
      var l2 := SplitOn(l1.1, '\n');
      var l3 := SplitOn(l2.1, '\n');
      var l4 := SplitOn(l3.1, '\n');
      && l1.0 == Verb(info)
      && l2.0 == FieldOr(info, "content-md5", "")
      && l3.0 == FieldOr(info, "content-type", "")
      && l4.0 == date
      && l4.1 == FieldOr(info, "canonicalized_oss_headers", "") + FieldOr(info, "canonicalized_resource", "/" + bucket + "/")
  {
    var md5 := FieldOr(info, "content-md5", "");
    var ctype := FieldOr(info, "content-type", "");
    var r4 := FieldOr(info, "canonicalized_oss_headers", "") + FieldOr(info, "canonicalized_resource", "/" + bucket + "/");
    var r3 := date + "\n" + r4;
    var r2 := ctype + "\n" + r3;
    var r1 := md5 + "\n" + r2;
    StringToSignNested(bucket, info, date);
    SplitOnJoin(Verb(info), '\n', r1);
    SplitOnJoin(md5, '\n', r2);
    SplitOnJoin(ctype, '\n', r3);
    SplitOnJoin(date, '\n', r4);
  }

  lemma StringToSignNested(bucket: string, info: AuthInfo, date: string)
    ensures StringToSign(bucket, info, date)
         == Verb(info) + "\n" + (FieldOr(info, "content-md5", "") + "\n" + (FieldOr(info, "content-type", "") + "\n"
            + (date + "\n" + (FieldOr(info, "canonicalized_oss_headers", "") + FieldOr(info, "canonicalized_resource", "/" + bucket + "/")))))
  {
  }

  /** The header is `OSS <AccessKeyId>:<signature>`, and reads back as such
      when the key id holds no colon. */
  lemma AuthHeaderFields(cfg: BucketConfig, info: AuthInfo, date: string, crypto: Crypto)
    requires ':' !in cfg.accessKeyId
    ensures var h := MakeAuth(cfg, info, date, crypto);
      && h[..4] == "OSS "
      && SplitOn(h[4..], ':') == (cfg.accessKeyId, Signature(cfg, info, date, crypto))
  {
    AuthHeaderParts(cfg, info, date, crypto);
    SplitOnJoin(cfg.accessKeyId, ':', Signature(cfg, info, date, crypto));
  }

  lemma AuthHeaderParts(cfg: BucketConfig, info: AuthInfo, date: string, crypto: Crypto)
    ensures var h := MakeAuth(cfg, info, date, crypto);
      && h[..4] == "OSS "
      && h[4..] == cfg.accessKeyId + [':'] + Signature(cfg, info, date, crypto)
  {
    var tail := cfg.accessKeyId + [':'] + Signature(cfg, info, date, crypto);
    assert MakeAuth(cfg, info, date, crypto) == "OSS " + tail;
  }

  /** The `auth_info` of `list_objects` (verb only) and of the object requests
      of `get_object` and `del_object` (verb and `/bucket/key`). */
  function ListAuthInfo(): AuthInfo
  {
    map["verb" := "GET"]
  }

  function ObjectAuthInfo(verb: string, bucket: string, key: string): AuthInfo
  {
    map["verb" := verb, "canonicalized_resource" := "/" + bucket + "/" + key]
  }

  /** The `auth_info` of `put_object`: also the Content-MD5 and Content-Type it sends. */
  function PutAuthInfo(contentMd5: string, contentType: string, bucket: string, key: string): AuthInfo
  {
    map["verb" := "PUT", "content-md5" := contentMd5, "content-type" := contentType,
        "canonicalized_resource" := "/" + bucket + "/" + key]
  }

  /** A listing request signs the bucket root and nothing else. */
  lemma ListStringToSign(bucket: string, date: string)
    ensures StringToSign(bucket, ListAuthInfo(), date) == "GET\n\n\n" + date + "\n/" + bucket + "/"
  {
    var info := ListAuthInfo();
    assert Verb(info) == "GET";
    assert FieldOr(info, "content-md5", "") == "" && FieldOr(info, "content-type", "") == "";
    assert FieldOr(info, "canonicalized_oss_headers", "") == "";
    assert FieldOr(info, "canonicalized_resource", "/" + bucket + "/") == "/" + bucket + "/";
  }

  /** A download or delete signs `/bucket/key` with no MD5, type or OSS headers. */
  lemma ObjectStringToSign(bucket: string, verb: string, key: string, date: string)
    ensures StringToSign(bucket, ObjectAuthInfo(verb, bucket, key), date) == verb + "\n\n\n" + date + "\n/" + bucket + "/" + key
  {
    var info := ObjectAuthInfo(verb, bucket, key);
    assert Verb(info) == verb;
    assert FieldOr(info, "content-md5", "") == "" && FieldOr(info, "content-type", "") == "";
    assert FieldOr(info, "canonicalized_oss_headers", "") == "";
    assert FieldOr(info, "canonicalized_resource", "/" + bucket + "/") == "/" + bucket + "/" + key;
  }

  /** An upload signs its MD5 and type as well. */
  lemma PutStringToSign(bucket: string, key: string, md5: string, ctype: string, date: string)
    ensures StringToSign(bucket, PutAuthInfo(md5, ctype, bucket, key), date)
         == "PUT\n" + md5 + "\n" + ctype + "\n" + date + "\n/" + bucket + "/" + key
  {
    var info := PutAuthInfo(md5, ctype, bucket, key);
    assert Verb(info) == "PUT";
    assert FieldOr(info, "content-md5", "") == md5 && FieldOr(info, "content-type", "") == ctype;
    assert FieldOr(info, "canonicalized_oss_headers", "") == "";
    assert FieldOr(info, "canonicalized_resource", "/" + bucket + "/") == "/" + bucket + "/" + key;
  }

  // ---------------------------------------------------------------------------
  // list_objects
  // ---------------------------------------------------------------------------

  /** The Key and ETag texts of one `<Contents>` element. */
  datatype ObjectXml = ObjectXml(key: string, etag: string)

  /** One response: its status, its `<Contents>` elements, and its
      `<NextMarker>` element (None: absent; Some(None): present with no text). */
  datatype Page = Page(status: int, contents: seq<ObjectXml>, nextMarker: Option<Option<string>>)

  /** `etag[1:-1]`: the ETag without its surrounding quotes. */
  function Unquote(etag: string): string
  {
    if |etag| >= 2 then etag[1..|etag| - 1] else ""
  }

  lemma UnquoteQuoted(digest: string)
    ensures Unquote("\"" + digest + "\"") == digest
  {
  }

  function Fingerprints(contents: seq<ObjectXml>): (r: seq<(string, string)>)
    ensures |r| == |contents|
    ensures forall i :: 0 <= i < |contents| ==> r[i] == (contents[i].key, Unquote(contents[i].etag))
  {
    seq(|contents|, i requires 0 <= i < |contents| => (contents[i].key, Unquote(contents[i].etag)))
  }

  /** The page after which `list_objects` stops requesting. */
  predicate IsLastPage(p: Page)
  {
    p.status != 200 || p.nextMarker.None?
  }

  /** The server eventually answers an error or a page without NextMarker. */
  predicate Ends(pages: seq<Page>)
  {
    |pages| > 0 && (IsLastPage(pages[0]) || Ends(pages[1..]))
  }

  /** The `marker` parameter of the request after page `p`: a NextMarker
      without text is falsy and is not sent. */
  function NextRequestMarker(p: Page): Option<string>
  {
    if p.nextMarker.Some? && p.nextMarker.value.Some? && p.nextMarker.value.value != ""
    then Some(p.nextMarker.value.value) else None
  }

  /** What `list_objects` returns for the successive responses `pages`. */
  function ListResult(pages: seq<Page>): Option<seq<(string, string)>>
    requires Ends(pages)
  {
    var p := pages[0];
    if p.status != 200 then None
    else if p.nextMarker.None? then Some(Fingerprints(p.contents))
    else
      match ListResult(pages[1..])
      case None => None
      case Some(rest) => Some(Fingerprints(p.contents) + rest)
  }

  /** The index of the page the listing stops at. */
  function LastIndex(pages: seq<Page>): (k: nat)
    requires Ends(pages)
    ensures k < |pages| && IsLastPage(pages[k])
    ensures forall j :: 0 <= j < k ==> !IsLastPage(pages[j])
  {
    if IsLastPage(pages[0]) then 0
    else
      var k := LastIndex(pages[1..]);
      assert forall j :: 1 <= j < k + 1 ==> pages[j] == pages[1..][j - 1];
      k + 1
  }

  /** The fingerprints of all `pages`, in page order. */
  function Collected(pages: seq<Page>): seq<(string, string)>
  {
    if pages == [] then [] else Fingerprints(pages[0].contents) + Collected(pages[1..])
  }

  /** `list_objects` returns every fingerprint of every page up to the last one,
      in page order, unless that last page is an error: then nothing at all. */
  lemma {:induction false} ListResultIs(pages: seq<Page>)
    requires Ends(pages)
    ensures ListResult(pages) ==
      if pages[LastIndex(pages)].status == 200 then Some(Collected(pages[..LastIndex(pages) + 1])) else None
  {
    var p := pages[0];
    var k := LastIndex(pages);
    if IsLastPage(p) {
      assert k == 0;
      assert pages[..1][0] == p && pages[..1][1..] == [];
      assert Collected(pages[..1]) == Fingerprints(p.contents) + Collected([]);
      assert Fingerprints(p.contents) + [] == Fingerprints(p.contents);
    } else {
      ListResultIs(pages[1..]);
      assert k == LastIndex(pages[1..]) + 1;
      assert pages[1..][k - 1] == pages[k];
      assert pages[1..][..k] == pages[1..k + 1];
      assert pages[..k + 1][0] == p && pages[..k + 1][1..] == pages[1..k + 1];
    }
  }

  /** What is listed so far, followed by what the remaining pages yield. */
  function Prepend(found: seq<(string, string)>, rest: Option<seq<(string, string)>>): Option<seq<(string, string)>>
  {
    match rest
    case None => None
    case Some(more) => Some(found + more)
  }

  /** One more page that is not the last: the listing continues past it. */
  lemma ListMore(pages: seq<Page>, i: nat, found: seq<(string, string)>)
    requires i < |pages| && Ends(pages[i..]) && !IsLastPage(pages[i])
    ensures Ends(pages[i + 1..])
    ensures LastIndex(pages[i..]) == 1 + LastIndex(pages[i + 1..])
    ensures Prepend(found, ListResult(pages[i..]))
         == Prepend(found + Fingerprints(pages[i].contents), ListResult(pages[i + 1..]))
  {
    assert pages[i..][0] == pages[i];
    assert pages[i..][1..] == pages[i + 1..];
    if ListResult(pages[i + 1..]).Some? {
      var rest := ListResult(pages[i + 1..]).value;
      assert found + (Fingerprints(pages[i].contents) + rest) == (found + Fingerprints(pages[i].contents)) + rest;
    }
  }

  /** The page the listing stops at. */
  lemma ListLast(pages: seq<Page>, i: nat, found: seq<(string, string)>)
    requires i < |pages| && Ends(pages[i..]) && IsLastPage(pages[i])
    ensures LastIndex(pages[i..]) == 0
    ensures Prepend(found, ListResult(pages[i..]))
         == if pages[i].status == 200 then Some(found + Fingerprints(pages[i].contents)) else None
  {
    assert pages[i..][0] == pages[i];
  }

  /** The state of `list_objects` before its request for page `i`: no earlier
      page was the last, `found` is what they yielded, `markers` the markers
      of the earlier requests and `marker` the one about to be sent. */
  predicate Requesting(pages: seq<Page>, i: nat, found: seq<(string, string)>,
                       markers: seq<Option<string>>, marker: Option<string>)
  {
    && Ends(pages) && i < |pages| && Ends(pages[i..])
    && (forall j :: 0 <= j < i ==> !IsLastPage(pages[j]))
    && ListResult(pages) == Prepend(found, ListResult(pages[i..]))
    && |markers| == i && marker == (if i == 0 then None else NextRequestMarker(pages[i - 1]))
    && (forall j :: 0 < j < i ==> markers[j] == NextRequestMarker(pages[j - 1]))
    && (i > 0 ==> markers[0] == None)
  }

  lemma RequestingFirst(pages: seq<Page>)
    requires Ends(pages)
    ensures Requesting(pages, 0, [], [], None)
  {
    assert pages[0..] == pages;
    if ListResult(pages).Some? {
      assert [] + ListResult(pages).value == ListResult(pages).value;
    }
  }

  lemma RequestingNext(pages: seq<Page>, i: nat, found: seq<(string, string)>,
                       markers: seq<Option<string>>, marker: Option<string>)
    requires Requesting(pages, i, found, markers, marker) && !IsLastPage(pages[i])
    ensures Requesting(pages, i + 1, found + Fingerprints(pages[i].contents),
                       markers + [marker], NextRequestMarker(pages[i]))
  {
    ListMore(pages, i, found);
  }

  /** The requests of `list_objects` up to the one answered by the last page:
      `found` holds the fingerprints of the pages before it, `markers` the
      `marker` parameter of every request made. */
  method RequestPages(pages: seq<Page>) returns (i: nat, found: seq<(string, string)>, markers: seq<Option<string>>)
    requires Ends(pages)
    ensures i == LastIndex(pages) && Ends(pages[i..])
    ensures ListResult(pages) == Prepend(found, ListResult(pages[i..]))
    ensures |markers| == i + 1 && markers[0] == None
    ensures forall j :: 0 < j <= i ==> markers[j] == NextRequestMarker(pages[j - 1])
  {
    found := [];
    var marker: Option<string> := None;
    markers := [];
    i := 0;
    RequestingFirst(pages);
    while !IsLastPage(pages[i])
      invariant Requesting(pages, i, found, markers, marker)
      decreases |pages| - i
    {
      RequestingNext(pages, i, found, markers, marker);
      markers := markers + [marker];
      found := found + Fingerprints(pages[i].contents);
      marker := NextRequestMarker(pages[i]);
      i := i + 1;
    }
    markers := markers + [marker];
  }

  /** `list_objects` over the successive responses `pages`; `markers` are the
      `marker` parameters of the requests it makes, in order. */
  method ListObjects(pages: seq<Page>) returns (r: Option<seq<(string, string)>>, markers: seq<Option<string>>)
    requires Ends(pages)
    ensures r == ListResult(pages)
    ensures |markers| == LastIndex(pages) + 1 && markers[0] == None
    ensures forall i :: 0 < i < |markers| ==> markers[i] == NextRequestMarker(pages[i - 1])
  {
    var i, found;
    i, found, markers := RequestPages(pages);
    ListLast(pages, i, found);
    if pages[i].status != 200 {
      return None, markers;
    }
    r := Some(found + Fingerprints(pages[i].contents));
  }

  // ---------------------------------------------------------------------------
  // put_object / get_object / del_object
  // ---------------------------------------------------------------------------

  predicate PutSucceeded(status: int) { status == 200 }

  predicate GetSucceeded(status: int) { status == 200 }

  predicate DelSucceeded(status: int) { status == 204 }

  /** The bucket's objects after an upload answered with `status`. */
  function AfterPut(objects: map<string, Bytes>, key: string, data: Bytes, status: int): map<string, Bytes>
  {
    if PutSucceeded(status) then objects[key := data] else objects
  }

  /** The bucket's objects after a delete answered with `status`. */
  function AfterDelete(objects: map<string, Bytes>, key: string, status: int): map<string, Bytes>
  {
    if DelSucceeded(status) then objects - {key} else objects
  }

  /** What a download returns: the content on 200; a missing object is
      answered 404, whatever else happens on the way. */
  function GetResponse(objects: map<string, Bytes>, key: string, status: int): Option<Bytes>
  {
    if GetSucceeded(status) && key in objects then Some(objects[key]) else None
  }

  /** The bucket, seen through the objects it holds on the server. Each
      request method takes the HTTP status the server answers. */
  class AliyunOssBucket {
    const config: BucketConfig
    var objects: map<string, Bytes>

    constructor (config: BucketConfig, objects: map<string, Bytes>)
      ensures this.config == config && this.objects == objects
    {
      this.config := config;
      this.objects := objects;
    }

    /** `put_object`: success means status 200, and then the object holds `data`. */
    method PutObject(key: string, data: Bytes, status: int) returns (ok: bool)
      modifies this
      ensures ok <==> status == 200
      ensures objects == AfterPut(old(objects), key, data, status)
      ensures ok ==> key in objects && objects[key] == data
      ensures !ok ==> objects == old(objects)
    {
      ok := PutSucceeded(status);
      if ok {
        objects := objects[key := data];
      }
    }

    /** `get_object`: the content on status 200, `None` on anything else. */
    method GetObject(key: string, status: int) returns (r: Option<Bytes>)
      ensures r.Some? <==> status == 200 && key in objects
      ensures r.Some? ==> r.value == objects[key]
    {
      r := GetResponse(objects, key, status);
    }

    /** `del_object`: success means status 204, and then the key is gone. */
    method DelObject(key: string, status: int) returns (ok: bool)
      modifies this
      ensures ok <==> status == 204
      ensures objects == AfterDelete(old(objects), key, status)
      ensures ok ==> key !in objects
      ensures !ok ==> objects == old(objects)
    {
      ok := DelSucceeded(status);
      if ok {
        objects := objects - {key};
      }
    }
  }
}
