/**
 * HttpUtils: the request-building and response-reading rules of the OkHttp
 * wrapper. Requests, bodies, calls and responses are plain values; OkHttp's
 * URL parser, the JSON reader and the file writer are passed in as
 * functions; the shared client and a client's dispatcher are objects whose
 * fields change.
 */
module HttpUtils {
  import opened Results
  import opened Text

  /** A Map<K, V> as its entries in iteration order: each key's toString, and its value's toString or null. */
  type Params = seq<(string, Option<string>)>

  /** Headers: name/value pairs in the order they were added. */
  type Headers = seq<(string, string)>

  /** A request tag (any Object compared with equals). */
  type Tag = string

  const FormContentType := "application/x-www-form-urlencoded; charset=utf-8"
  const FileContentType := "application/octet-stream"

  /*---- getGetUrl ----*/

  /** One query pair: the key, '=', and the value or nothing for a null value, with no percent-encoding. */
  function QueryPair(entry: (string, Option<string>)): (r: string)
    ensures |r| == |entry.0| + 1 + |entry.1.GetOr("")|
    ensures r[..|entry.0|] == entry.0 && r[|entry.0|] == '=' && r[|entry.0| + 1..] == entry.1.GetOr("")
  {
    entry.0 + "=" + entry.1.GetOr("")
  }

  /** The query pairs of every entry, in iteration order. */
  function QueryPairs(params: Params): (r: seq<string>)
    ensures |r| == |params| && forall i :: 0 <= i < |params| ==> r[i] == QueryPair(params[i])
  {
    seq(|params|, i requires 0 <= i < |params| => QueryPair(params[i]))
  }

  /**
   * getGetUrl(url, params): the url unchanged when params is null, the url
   * is blank or params is empty; otherwise url + "?" + the pairs joined by '&'.
   */
  method GetGetUrl(url: Option<string>, params: Option<Params>) returns (r: Option<string>)
    ensures params.None? || IsBlank(url) || |params.value| == 0 ==> r == url
    ensures params.Some? && !IsBlank(url) && |params.value| > 0 ==>
      r == Some(url.value + "?" + Join(QueryPairs(params.value), "&"))
  {
    if params.None? || IsBlank(url) {
      return url;
    }
    var ps := params.value;
    ghost var pairs := QueryPairs(ps);
    var tail: Option<string> := None;
    var i := 0;
    while i < |ps|
      invariant 0 <= i <= |ps|
      invariant i == 0 <==> tail.None?
      invariant tail.Some? ==> |tail.value| > 0 && tail.value == Join(pairs[..i], "&")
    {
      var piece := ps[i].0 + "=" + (if ps[i].1.None? then "" else ps[i].1.value);
      assert piece == pairs[i];
      assert pairs[..i + 1] == pairs[..i] + [pairs[i]];
      JoinSnoc(pairs[..i], pairs[i], "&");
      if tail.None? {
        tail := Some(piece);
      } else {
        tail := Some(tail.value + "&" + piece);
      }
      i := i + 1;
    }
    assert pairs[..i] == pairs;
    if tail.Some? && |tail.value| > 0 {
      return Some(url.value + "?" + tail.value);
    }
    return url;
  }

  /** n entries give n pairs separated by n - 1 '&', so the query is that long. */
  lemma QueryLength(params: Params)
    requires |params| > 0
    ensures |Join(QueryPairs(params), "&")| == TotalLength(QueryPairs(params)) + |params| - 1
  {
    JoinLength(QueryPairs(params), "&");
  }

  /** When no key or value contains '&', the query splits back into exactly the pairs, in order. */
  lemma QueryRecoverable(params: Params)
    requires |params| > 0
    requires forall i :: 0 <= i < |params| ==> !Contains(QueryPair(params[i]), "&")
    ensures Split(Join(QueryPairs(params), "&"), "&") == QueryPairs(params)
  {
    JoinSplit(QueryPairs(params), "&");
  }

  /** {"a": "1", "b": null} gives "?a=1&b=": a null value leaves an empty value after '='. */
  lemma QueryExample()
    ensures Join(QueryPairs([("a", Some("1")), ("b", None)]), "&") == "a=1&b="
  {
    var pairs := QueryPairs([("a", Some("1")), ("b", None)]);
    assert pairs[0] == "a=1" && pairs[1] == "b=";
    assert pairs == ["a=1"] + ["b="];
    JoinSnoc(["a=1"], "b=", "&");
  }

  /** Values are not percent-encoded: a space and a '%' go into the query as they are. */
  lemma QueryNotEncoded()
    ensures QueryPair(("q", Some("a b%"))) == "q=a b%"
  {
  }

  /*---- request bodies ----*/

  /** One part of a multipart body. */
  datatype Part =
    | FilePart(name: string, fileName: string, path: string)
    | FieldPart(name: string, value: Option<string>)

  /** A request body: an empty FormBody, a text body of a content type, or a multipart form. */
  datatype Body =
    | EmptyForm
    | TextBody(contentType: string, content: string)
    | Multipart(parts: seq<Part>)

  /** The form pairs of the entries whose value is not null, in iteration order. */
  function FormPairs(params: Params): seq<string>
    decreases |params|
  {
    if |params| == 0 then []
    else
      var last := params[|params| - 1];
      FormPairs(params[..|params| - 1]) + (if last.1.Some? then [QueryPair(last)] else [])
  }

  /** Null-valued entries are dropped: the form pairs are empty exactly when every value is null. */
  lemma {:induction false} FormPairsEmptyIffAllNull(params: Params)
    ensures |FormPairs(params)| == 0 <==> forall i :: 0 <= i < |params| ==> params[i].1.None?
    decreases |params|
  {
    if |params| > 0 {
      var init := params[..|params| - 1];
      FormPairsEmptyIffAllNull(init);
      assert forall i :: 0 <= i < |init| ==> init[i] == params[i];
    }
  }

  /** Without null values the form pairs are exactly the query pairs getGetUrl writes. */
  lemma {:induction false} FormPairsWithoutNulls(params: Params)
    requires forall i :: 0 <= i < |params| ==> params[i].1.Some?
    ensures FormPairs(params) == QueryPairs(params)
    decreases |params|
  {
    if |params| > 0 {
      var init := params[..|params| - 1];
      FormPairsWithoutNulls(init);
      assert QueryPairs(params) == QueryPairs(init) + [QueryPair(params[|params| - 1])];
    }
  }

  /** An entry with a null value adds nothing. */
  lemma NullEntryDropped(params: Params, key: string)
    ensures FormPairs(params + [(key, None)]) == FormPairs(params)
  {
    assert (params + [(key, None)])[..|params|] == params;
  }

  /**
   * getRequestBody(params): the non-null pairs joined by '&' as a form-encoded
   * text body; an empty FormBody when params is null or empty or every value
   * is null.
   */
  method GetFormBody(params: Option<Params>) returns (body: Body)
    ensures params.None? || |FormPairs(params.value)| == 0 ==> body == EmptyForm
    ensures params.Some? && |FormPairs(params.value)| > 0 ==>
      body == TextBody(FormContentType, Join(FormPairs(params.value), "&"))
  {
    if params.Some? && |params.value| > 0 {
      var ps := params.value;
      var sb: Option<string> := None;
      var i := 0;
      while i < |ps|
        invariant 0 <= i <= |ps|
        invariant sb.None? <==> |FormPairs(ps[..i])| == 0
        invariant sb.Some? ==> sb.value == Join(FormPairs(ps[..i]), "&")
      {
        var key := ps[i].0;
        var value := ps[i].1;
        FormPairsStep(ps, i);
        if value.Some? {
          var text: string;
          if sb.None? {
            text := "";
          } else {
            text := sb.value + "&";
          }
          text := text + key + "=" + value.value;
          assert key + "=" + value.value == QueryPair(ps[i]);
          JoinSnoc(FormPairs(ps[..i]), QueryPair(ps[i]), "&");
          sb := Some(text);
        }
        i := i + 1;
      }
      assert ps[..i] == ps;
      if sb.Some? {
        return TextBody(FormContentType, sb.value);
      }
    }
    return EmptyForm;
  }

  /** One more entry of the params adds its pair when its value is not null. */
  lemma FormPairsStep(ps: Params, i: nat)
    requires i < |ps|
    ensures ps[i].1.Some? ==> FormPairs(ps[..i + 1]) == FormPairs(ps[..i]) + [QueryPair(ps[i])]
    ensures ps[i].1.None? ==> FormPairs(ps[..i + 1]) == FormPairs(ps[..i])
  {
    assert ps[..i + 1][..i] == ps[..i];
    assert FormPairs(ps[..i]) + [] == FormPairs(ps[..i]);
  }

  /** An empty form body is not the same body as one holding a single empty-valued pair. */
  lemma EmptyFormIsNotEmptyPair()
    ensures FormPairs([("a", Some(""))]) == ["a="]
    ensures TextBody(FormContentType, Join(FormPairs([("a", Some(""))]), "&")) != EmptyForm
  {
    assert [("a", Some(""))][..0] == [];
    assert QueryPair(("a", Some(""))) == "a=";
  }

  /*---- getHeaders ----*/

  /**
   * getHeaders(headerMap): null for a null or empty map; otherwise one
   * header per entry in iteration order, a null value written as "".
   */
  method GetHeaders(headerMap: Option<Params>) returns (r: Option<Headers>)
    ensures r.None? <==> headerMap.None? || |headerMap.value| == 0
    ensures r.Some? ==> |r.value| == |headerMap.value|
    ensures r.Some? ==> forall i :: 0 <= i < |r.value| ==>
      r.value[i] == (headerMap.value[i].0, headerMap.value[i].1.GetOr(""))
  {
    if headerMap.None? || |headerMap.value| == 0 {
      return None;
    }
    var entries := headerMap.value;
    var builder: Headers := [];
    for i := 0 to |entries|
      invariant |builder| == i
      invariant forall j :: 0 <= j < i ==> builder[j] == (entries[j].0, entries[j].1.GetOr(""))
    {
      var value := if entries[i].1.Some? then entries[i].1.value else "";
      builder := builder + [(entries[i].0, value)];
    }
    r := Some(builder);
  }

  /*---- getRequestBody(File[], Map) ----*/

  /** A java.io.File as the multipart builder sees it. */
  datatype FileRef = FileRef(path: string, present: bool, isFile: bool)

  /** File.getName: the part of the path after its last '/'. */
  function BaseName(path: string): string
    decreases |path|
  {
    if |path| == 0 || path[|path| - 1] == '/' then ""
    else BaseName(path[..|path| - 1]) + [path[|path| - 1]]
  }

  /** The base name is a suffix of the path free of '/', and it is the whole path or follows a '/'. */
  lemma BaseNameIsLastSegment(path: string)
    ensures |BaseName(path)| <= |path| && BaseName(path) == path[|path| - |BaseName(path)|..]
    ensures forall i :: 0 <= i < |BaseName(path)| ==> BaseName(path)[i] != '/'
    ensures |BaseName(path)| < |path| ==> path[|path| - |BaseName(path)| - 1] == '/'
  {
    BaseNameSuffix(path);
    BaseNameSlashFree(path);
    BaseNameAfterSlash(path);
  }

  lemma {:induction false} BaseNameSuffix(path: string)
    ensures |BaseName(path)| <= |path| && BaseName(path) == path[|path| - |BaseName(path)|..]
    decreases |path|
  {
    if |path| > 0 && path[|path| - 1] != '/' {
      var init, c := path[..|path| - 1], path[|path| - 1];
      BaseNameSuffix(init);
      var bi := BaseName(init);
      assert BaseName(path) == bi + [c];
      assert path[|init| - |bi|..] == init[|init| - |bi|..] + [c];
    }
  }

  lemma {:induction false} BaseNameSlashFree(path: string)
    ensures forall i :: 0 <= i < |BaseName(path)| ==> BaseName(path)[i] != '/'
    decreases |path|
  {
    if |path| > 0 && path[|path| - 1] != '/' {
      var init, c := path[..|path| - 1], path[|path| - 1];
      BaseNameSlashFree(init);
      var b, bi := BaseName(path), BaseName(init);
      assert b == bi + [c];
      assert forall i :: 0 <= i < |bi| ==> b[i] == bi[i];
    }
  }

  lemma {:induction false} BaseNameAfterSlash(path: string)
    ensures |BaseName(path)| < |path| ==> path[|path| - |BaseName(path)| - 1] == '/'
    decreases |path|
  {
    if |path| > 0 && path[|path| - 1] != '/' {
      var init, c := path[..|path| - 1], path[|path| - 1];
      BaseNameAfterSlash(init);
      var bi := BaseName(init);
      assert BaseName(path) == bi + [c];
      if |bi| < |init| {
        assert path[|init| - |bi| - 1] == init[|init| - |bi| - 1];
      }
    }
  }

  /** A file the multipart builder accepts: not null, existing, and a regular file. */
  predicate ValidFile(file: Option<FileRef>) {
    file.Some? && file.value.present && file.value.isFile
  }

  /** The FileNotFoundException raised for a rejected file, naming its path when there is one. */
  function FileError(file: Option<FileRef>): Error {
    match file
    case None => FileNotFoundException("文件上传失败:" + "文件不能为空")
    case Some(f) =>
      if !f.present then FileNotFoundException("文件上传失败:" + "文件[" + f.path + "]未找到")
      else FileNotFoundException("文件上传失败:" + "文件[" + f.path + "]不是个文件")
  }

  /** The part a valid file adds: named "file", carrying the file's base name. */
  function FilePartOf(f: FileRef): Part {
    FilePart("file", BaseName(f.path), f.path)
  }

  /** The index of the first rejected file. */
  function FirstInvalidFile(files: seq<Option<FileRef>>): (r: Option<nat>)
    ensures r.Some? ==> r.value < |files| && !ValidFile(files[r.value])
    ensures r.Some? ==> forall j :: 0 <= j < r.value ==> ValidFile(files[j])
    ensures r.None? ==> forall j :: 0 <= j < |files| ==> ValidFile(files[j])
    decreases |files|
  {
    if |files| == 0 then None
    else if !ValidFile(files[0]) then Some(0)
    else match FirstInvalidFile(files[1..])
      case None => None
      case Some(k) => Some(k + 1)
  }

  /** The field parts of the params, one per entry, null values kept as null fields. */
  function FieldParts(params: Params): (r: seq<Part>)
    ensures |r| == |params| && forall i :: 0 <= i < |params| ==> r[i] == FieldPart(params[i].0, params[i].1)
  {
    seq(|params|, i requires 0 <= i < |params| => FieldPart(params[i].0, params[i].1))
  }

  /** The file parts of accepted files, one per file, in order. */
  function FileParts(files: seq<Option<FileRef>>): (r: seq<Part>)
    requires forall i :: 0 <= i < |files| ==> ValidFile(files[i])
    ensures |r| == |files| && forall i :: 0 <= i < |files| ==> files[i].Some? && r[i] == FilePartOf(files[i].value)
  {
    forall i | 0 <= i < |files|
      ensures files[i].Some?
    {
      assert ValidFile(files[i]);
    }
    seq(|files|, i requires 0 <= i < |files| && files[i].Some? => FilePartOf(files[i].value))
  }

  /**
   * What getRequestBody(files, params) builds: the FileNotFoundException of
   * the first rejected file, or a multipart form of one file part per file
   * followed by one field part per param.
   */
  function MultipartBody(files: Option<seq<Option<FileRef>>>, params: Option<Params>): (r: Result<Body>)
    ensures files.Some? && FirstInvalidFile(files.value).Some? ==>
      r == Err(FileError(files.value[FirstInvalidFile(files.value).value]))
    ensures r.Ok? ==> r.value.Multipart?
    ensures r.Ok? ==> |r.value.parts| == |files.GetOr([])| + |params.GetOr([])|
  {
    var fs := files.GetOr([]);
    match FirstInvalidFile(fs)
    case Some(i) => Err(FileError(fs[i]))
    case None => Ok(Multipart(FileParts(fs) + FieldParts(params.GetOr([]))))
  }

  /** The files' parts come first, in order, named "file" with their base names; the fields follow. */
  lemma MultipartLayout(files: seq<Option<FileRef>>, params: Option<Params>)
    requires forall i :: 0 <= i < |files| ==> ValidFile(files[i])
    ensures MultipartBody(Some(files), params).Ok?
    ensures forall i :: 0 <= i < |files| ==>
      MultipartBody(Some(files), params).value.parts[i] == FilePart("file", BaseName(files[i].value.path), files[i].value.path)
    ensures MultipartBody(Some(files), params).value.parts[|files|..] == FieldParts(params.GetOr([]))
  {
  }

  /** The file half of getRequestBody(files, params): checks each file in turn, throwing at the first rejected one. */
  method AddFileParts(fs: seq<Option<FileRef>>) returns (r: Result<seq<Part>>)
    ensures FirstInvalidFile(fs).Some? ==> r == Err(FileError(fs[FirstInvalidFile(fs).value]))
    ensures FirstInvalidFile(fs).None? ==> r == Ok(FileParts(fs))
  {
    var parts: seq<Part> := [];
    for i := 0 to |fs|
      invariant forall j :: 0 <= j < i ==> ValidFile(fs[j])
      invariant |parts| == i
      invariant forall j :: 0 <= j < i ==> fs[j].Some? && parts[j] == FilePartOf(fs[j].value)
    {
      var file := fs[i];
      if !ValidFile(file) {
        FirstInvalidAt(fs, i);
        return Err(FileError(file));
      }
      parts := parts + [FilePartOf(file.value)];
    }
    assert parts == FileParts(fs);
    r := Ok(parts);
  }

  /** The first rejected file is found at i when all files before it are accepted. */
  lemma {:induction false} FirstInvalidAt(fs: seq<Option<FileRef>>, i: nat)
    requires i < |fs| && !ValidFile(fs[i])
    requires forall j :: 0 <= j < i ==> ValidFile(fs[j])
    ensures FirstInvalidFile(fs) == Some(i)
    decreases i
  {
    if i > 0 {
      FirstInvalidAt(fs[1..], i - 1);
    }
  }

  /** One more param entry adds its field part. */
  lemma FieldPartsStep(ps: Params, i: nat)
    requires i < |ps|
    ensures FieldParts(ps[..i + 1]) == FieldParts(ps[..i]) + [FieldPart(ps[i].0, ps[i].1)]
  {
  }

  /** getRequestBody(files, params): the file parts, then one field part per param entry. */
  method GetMultipartBody(files: Option<seq<Option<FileRef>>>, params: Option<Params>) returns (r: Result<Body>)
    ensures r == MultipartBody(files, params)
  {
    var parts: seq<Part> := [];
    var fs := files.GetOr([]);
    if files.Some? && |files.value| > 0 {
      var added := AddFileParts(fs);
      if added.Err? {
        return Err(added.error);
      }
      parts := added.value;
    } else {
      assert FirstInvalidFile(fs).None? && FileParts(fs) == [];
    }
    assert FirstInvalidFile(fs).None? && parts == FileParts(fs);
    var ps := params.GetOr([]);
    if params.Some? && |params.value| > 0 {
      var fields := AddFieldParts(ps);
      parts := parts + fields;
    } else {
      assert FieldParts(ps) == [] && parts + [] == parts;
    }
    assert parts == FileParts(fs) + FieldParts(ps);
    r := Ok(Multipart(parts));
  }

  /** The field half of getRequestBody(files, params): one field part per entry, in order. */
  method AddFieldParts(ps: Params) returns (parts: seq<Part>)
    ensures parts == FieldParts(ps)
  {
    parts := [];
    for i := 0 to |ps|
      invariant parts == FieldParts(ps[..i])
    {
      FieldPartsStep(ps, i);
      parts := parts + [FieldPart(ps[i].0, ps[i].1)];
    }
    assert ps[..|ps|] == ps;
  }

  /** A missing second file stops the build with its path, whatever follows. */
  lemma MissingFileReported(ok: FileRef, missing: FileRef, rest: seq<Option<FileRef>>, params: Option<Params>)
    requires ok.present && ok.isFile && !missing.present
    ensures MultipartBody(Some([Some(ok), Some(missing)] + rest), params) ==
      Err(FileNotFoundException("文件上传失败:" + "文件[" + missing.path + "]未找到"))
  {
    var fs := [Some(ok), Some(missing)] + rest;
    assert !ValidFile(fs[1]) && ValidFile(fs[0]);
    assert FirstInvalidFile(fs) == Some(1);
  }

  /*---- getRequest ----*/

  /** A built request. */
  datatype Request = Request(url: string, verb: string, body: Option<Body>, headers: Headers, tag: Option<Tag>)

  /**
   * getRequest(url, body, headers, tag): Request.Builder.url rejects a null
   * url with NullPointerException and an unparsable one with
   * IllegalArgumentException; the method is POST exactly when there is a
   * body; headers and tag are set only when given.
   */
  function GetRequest(url: Option<string>, body: Option<Body>, headers: Option<Headers>, tag: Option<Tag>,
                      parsesAsUrl: string -> bool): (r: Result<Request>)
    ensures url.None? ==> r == Err(NullPointerException)
    ensures url.Some? && !parsesAsUrl(url.value) ==> r == Err(IllegalArgumentException("unexpected url: " + url.value))
    ensures url.Some? && parsesAsUrl(url.value) ==> r.Ok?
    ensures r.Ok? ==> r.value.url == url.value && r.value.body == body
    ensures r.Ok? ==> (r.value.verb == "POST" <==> body.Some?) && (r.value.verb == "GET" <==> body.None?)
    ensures r.Ok? ==> r.value.headers == headers.GetOr([]) && r.value.tag == tag
  {
    match url
    case None => Err(NullPointerException)
    case Some(u) =>
      if !parsesAsUrl(u) then Err(IllegalArgumentException("unexpected url: " + u))
      else Ok(Request(u, if body.Some? then "POST" else "GET", body, headers.GetOr([]), tag))
  }

  /*---- responses ----*/

  /** A response: status code, status message and the body's content. */
  datatype Response = Response(code: int, message: string, body: string)

  /** Response.isSuccessful: a 2xx status. */
  predicate IsSuccessful(r: Response)
    ensures IsSuccessful(r) <==> r.code / 100 == 2
  {
    200 <= r.code <= 299
  }

  /** The IOException the strict accessors raise: the code, "||", the message. */
  function StatusError(r: Response): (e: Error)
    ensures e.IOException? && StartsWith(e.message, DecimalString(r.code) + "||")
    ensures e.message[|DecimalString(r.code)| + 2..] == r.message
  {
    var m := DecimalString(r.code) + "||" + r.message;
    assert m[..|DecimalString(r.code) + "||"|] == DecimalString(r.code) + "||";
    IOException(m)
  }

  /** responseCode: null for a null response. */
  function ResponseCode(response: Option<Response>): (r: Option<int>)
    ensures r.None? <==> response.None?
    ensures r.Some? ==> r.value == response.value.code
  {
    match response
    case None => None
    case Some(resp) => Some(resp.code)
  }

  /** responseStrForce: empty for a null response, otherwise the body, whatever the status. */
  function ResponseStrForce(response: Option<Response>): (r: Result<Option<string>>)
    ensures response.None? ==> r == Ok(None)
    ensures response.Some? ==> r == Ok(Some(response.value.body))
  {
    match response
    case None => Ok(None)
    case Some(resp) => Ok(Some(resp.body))
  }

  /** responseStr: empty for a null response, the body for a successful one, the status error otherwise. */
  function ResponseStr(response: Option<Response>): (r: Result<Option<string>>)
    ensures response.None? ==> r == Ok(None)
    ensures response.Some? && IsSuccessful(response.value) ==> r == Ok(Some(response.value.body))
    ensures response.Some? && !IsSuccessful(response.value) ==> r == Err(StatusError(response.value))
  {
    match response
    case None => Ok(None)
    case Some(resp) => if IsSuccessful(resp) then ResponseStrForce(response) else Err(StatusError(resp))
  }

  /** Decoding a present string with the JSON reader; an absent string gives empty. */
  function Decode<T>(str: Result<Option<string>>, decode: string -> Result<Option<T>>): (r: Result<Option<T>>)
    ensures str.Err? ==> r == Err(str.error)
    ensures str == Ok(None) ==> r == Ok(None)
    ensures str.Ok? && str.value.Some? ==> r == decode(str.value.value)
  {
    match str
    case Err(e) => Err(e)
    case Ok(None) => Ok(None)
    case Ok(Some(s)) => decode(s)
  }

  /** responseMap: the strict string, decoded to a map by the JSON reader. */
  function ResponseMap<M>(response: Option<Response>, toMap: string -> Result<Option<M>>): (r: Result<Option<M>>)
    ensures response.None? ==> r == Ok(None)
    ensures response.Some? && IsSuccessful(response.value) ==> r == toMap(response.value.body)
    ensures response.Some? && !IsSuccessful(response.value) ==> r == Err(StatusError(response.value))
  {
    if response.None? then Ok(None) else Decode(ResponseStr(response), toMap)
  }

  /** responseMapForce: the body decoded to a map, whatever the status. */
  function ResponseMapForce<M>(response: Option<Response>, toMap: string -> Result<Option<M>>): (r: Result<Option<M>>)
    ensures response.None? ==> r == Ok(None)
    ensures response.Some? ==> r == toMap(response.value.body)
  {
    if response.None? then Ok(None) else Decode(ResponseStrForce(response), toMap)
  }

  /** responseObj (by Class or by Type): the strict string, decoded to an object; a JSON error propagates. */
  function ResponseObj<T>(response: Option<Response>, fromJson: string -> Result<Option<T>>): (r: Result<Option<T>>)
    ensures response.None? ==> r == Ok(None)
    ensures response.Some? && IsSuccessful(response.value) ==> r == fromJson(response.value.body)
    ensures response.Some? && !IsSuccessful(response.value) ==> r == Err(StatusError(response.value))
  {
    if response.None? then Ok(None) else Decode(ResponseStr(response), fromJson)
  }

  /** responseObjForce (by Class or by Type): the body decoded to an object, whatever the status. */
  function ResponseObjForce<T>(response: Option<Response>, fromJson: string -> Result<Option<T>>): (r: Result<Option<T>>)
    ensures response.None? ==> r == Ok(None)
    ensures response.Some? ==> r == fromJson(response.value.body)
  {
    if response.None? then Ok(None) else Decode(ResponseStrForce(response), fromJson)
  }

  /** responseInputStream: the body's byte stream, for a successful response only. */
  function ResponseInputStream(response: Option<Response>): (r: Result<Option<string>>)
    ensures response.None? ==> r == Ok(None)
    ensures response.Some? && IsSuccessful(response.value) ==> r == Ok(Some(response.value.body))
    ensures response.Some? && !IsSuccessful(response.value) ==> r == Err(StatusError(response.value))
  {
    match response
    case None => Ok(None)
    case Some(resp) => if IsSuccessful(resp) then Ok(Some(resp.body)) else Err(StatusError(resp))
  }

  /**
   * responseFile: the stream written to targetPath by FileUtils.write; the
   * written file when it exists and is a regular file, empty otherwise.
   */
  function ResponseFile(response: Option<Response>, targetPath: string,
                        write: (string, string) -> Result<FileRef>): (r: Result<Option<FileRef>>)
    ensures response.None? ==> r == Ok(None)
    ensures response.Some? && !IsSuccessful(response.value) ==> r == Err(StatusError(response.value))
    ensures response.Some? && IsSuccessful(response.value) && write(response.value.body, targetPath).Err? ==>
      r == Err(write(response.value.body, targetPath).error)
    ensures r.Ok? && r.value.Some? ==>
      response.Some? && r.value == Some(write(response.value.body, targetPath).value) && r.value.value.present && r.value.value.isFile
    ensures response.Some? && IsSuccessful(response.value) && write(response.value.body, targetPath).Ok? ==>
      var file := write(response.value.body, targetPath).value;
      r == Ok(if file.present && file.isFile then Some(file) else None)
  {
    if response.None? then Ok(None)
    else
      match ResponseInputStream(response)
      case Err(e) => Err(e)
      case Ok(None) => Ok(None)
      case Ok(Some(stream)) =>
        match write(stream, targetPath)
        case Err(e) => Err(e)
        case Ok(file) => if file.present && file.isFile then Ok(Some(file)) else Ok(None)
  }

  /** On a successful response every strict accessor gives what its force twin gives. */
  lemma StrictIsForceOnSuccess<T>(response: Response, decode: string -> Result<Option<T>>)
    requires IsSuccessful(response)
    ensures ResponseStr(Some(response)) == ResponseStrForce(Some(response))
    ensures ResponseMap(Some(response), decode) == ResponseMapForce(Some(response), decode)
    ensures ResponseObj(Some(response), decode) == ResponseObjForce(Some(response), decode)
  {
  }

  /** A strict accessor fails exactly on a non-successful response, and never consults the decoder then. */
  lemma StrictFailsExactlyOnStatus<T>(response: Response, decode: string -> Result<Option<T>>)
    requires forall s :: decode(s).Ok?
    ensures ResponseStr(Some(response)).Err? <==> !IsSuccessful(response)
    ensures ResponseObj(Some(response), decode).Err? <==> !IsSuccessful(response)
    ensures ResponseInputStream(Some(response)).Err? <==> !IsSuccessful(response)
  {
  }

  /** Force accessors never look at the status: changing the code and message changes nothing. */
  lemma ForceIgnoresStatus<T>(response: Response, code: int, message: string, decode: string -> Result<Option<T>>)
    ensures ResponseStrForce(Some(response)) == ResponseStrForce(Some(response.(code := code, message := message)))
    ensures ResponseObjForce(Some(response), decode) ==
      ResponseObjForce(Some(response.(code := code, message := message)), decode)
    ensures ResponseMapForce(Some(response), decode) ==
      ResponseMapForce(Some(response.(code := code, message := message)), decode)
  {
  }

  /** A 404 "Not Found" raises IOException("404||Not Found"). */
  lemma StatusErrorExample()
    ensures ResponseStr(Some(Response(404, "Not Found", ""))) == Err(IOException("404||Not Found"))
  {
    Decimal404();
    assert "404" + "||" + "Not Found" == "404||Not Found";
  }

  lemma Decimal404()
    ensures DecimalString(404) == "404"
  {
    assert 404 / 10 == 40 && 404 % 10 == 4 && 40 / 10 == 4 && 40 % 10 == 0;
    assert DigitChar(4) == '4' && DigitChar(0) == '0';
    assert Digits(404) == Digits(40) + [DigitChar(4)];
    assert Digits(40) == Digits(4) + [DigitChar(0)];
  }

  /*---- calls, dispatcher, clients ----*/

  /** A call: the request it runs and whether it has been cancelled. */
  datatype Call = Call(request: Request, cancelled: bool)

  /** Call.cancel, when the call carries the tag. */
  function CancelIfTagged(call: Call, tag: Tag): (r: Call)
    ensures r.request == call.request
    ensures r.cancelled <==> call.cancelled || call.request.tag == Some(tag)
  {
    if call.request.tag == Some(tag) then call.(cancelled := true) else call
  }

  /** The calls after cancelling those that carry the tag. */
  function CancelTagged(calls: seq<Call>, tag: Tag): (r: seq<Call>)
    ensures |r| == |calls| && forall i :: 0 <= i < |calls| ==> r[i] == CancelIfTagged(calls[i], tag)
  {
    seq(|calls|, i requires 0 <= i < |calls| => CancelIfTagged(calls[i], tag))
  }

  /** The calls after cancelling every one of them. */
  function CancelEvery(calls: seq<Call>): (r: seq<Call>)
    ensures |r| == |calls| && forall i :: 0 <= i < |calls| ==> r[i] == calls[i].(cancelled := true)
  {
    seq(|calls|, i requires 0 <= i < |calls| => calls[i].(cancelled := true))
  }

  /** Tagged cancellation touches exactly the tagged calls: others keep their state, tagged ones end cancelled. */
  lemma CancelTaggedExactly(calls: seq<Call>, tag: Tag)
    ensures forall i :: 0 <= i < |calls| && calls[i].request.tag != Some(tag) ==> CancelTagged(calls, tag)[i] == calls[i]
    ensures forall i :: 0 <= i < |calls| && calls[i].request.tag == Some(tag) ==>
      CancelTagged(calls, tag)[i] == calls[i].(cancelled := true)
  {
  }

  /** Cancelling the same tag twice is the same as once. */
  lemma CancelTaggedIdempotent(calls: seq<Call>, tag: Tag)
    ensures CancelTagged(CancelTagged(calls, tag), tag) == CancelTagged(calls, tag)
  {
  }

  /** Cancelling every call subsumes cancelling any tag. */
  lemma CancelEveryAfterTagged(calls: seq<Call>, tag: Tag)
    ensures CancelEvery(CancelTagged(calls, tag)) == CancelEvery(calls)
  {
  }

  /** A client's dispatcher: the calls waiting and the calls in flight. */
  class Dispatcher {
    var queued: seq<Call>
    var running: seq<Call>

    constructor ()
      ensures queued == [] && running == []
    {
      queued := [];
      running := [];
    }

    /** Dispatcher.cancelAll: every queued and running call is cancelled. */
    method CancelAll()
      modifies this
      ensures queued == CancelEvery(old(queued)) && running == CancelEvery(old(running))
    {
      queued := CancelEvery(queued);
      running := CancelEvery(running);
    }
  }

  /** The settings of a built client. */
  datatype ClientConfig = ClientConfig(connectTimeoutSeconds: int, readTimeoutSeconds: int,
                                       writeTimeoutSeconds: int, trustsAllCertificates: bool)

  /** The shared client's settings: 15-second timeouts and the permissive TLS setup. */
  const DefaultConfig := ClientConfig(15, 15, 15, true)

  /** An OkHttpClient: its settings and its dispatcher. */
  class Client {
    const config: ClientConfig
    const dispatcher: Dispatcher

    constructor (config: ClientConfig)
      ensures this.config == config && fresh(dispatcher)
      ensures dispatcher.queued == [] && dispatcher.running == []
    {
      this.config := config;
      dispatcher := new Dispatcher();
    }
  }

  /** cancelAll(client): a null client is a no-op; otherwise its dispatcher cancels everything. */
  method CancelAll(client: Client?)
    modifies if client != null then {client.dispatcher} else {}
    ensures client != null ==>
      client.dispatcher.queued == CancelEvery(old(client.dispatcher.queued)) &&
      client.dispatcher.running == CancelEvery(old(client.dispatcher.running))
  {
    if client != null {
      client.dispatcher.CancelAll();
    }
  }

  /**
   * cancelAll(client, tag): with a tag, cancels exactly the queued and
   * running calls carrying it. A null tag first cancels everything and then
   * calls tag.equals on the first call, which raises NullPointerException
   * when there is any call.
   */
  method CancelAllTagged(client: Client?, tag: Option<Tag>) returns (r: Result<()>)
    modifies if client != null then {client.dispatcher} else {}
    ensures client == null ==> r == Ok(())
    ensures client != null && tag.Some? ==>
      r == Ok(()) &&
      client.dispatcher.queued == CancelTagged(old(client.dispatcher.queued), tag.value) &&
      client.dispatcher.running == CancelTagged(old(client.dispatcher.running), tag.value)
    ensures client != null && tag.None? ==>
      client.dispatcher.queued == CancelEvery(old(client.dispatcher.queued)) &&
      client.dispatcher.running == CancelEvery(old(client.dispatcher.running)) &&
      (r == Err(NullPointerException) <==> |old(client.dispatcher.queued)| + |old(client.dispatcher.running)| > 0) &&
      (r.Err? || r == Ok(()))
  {
    if tag.None? {
      CancelAll(client);
    }
    if client == null {
      return Ok(());
    }
    var d := client.dispatcher;
    if tag.None? {
      if |d.queued| > 0 || |d.running| > 0 {
        return Err(NullPointerException);
      }
      return Ok(());
    }
    var t := tag.value;
    ghost var queued0, running0 := d.queued, d.running;
    for i := 0 to |d.queued|
      invariant |d.queued| == |queued0| && d.running == running0
      invariant forall j :: 0 <= j < i ==> d.queued[j] == CancelIfTagged(queued0[j], t)
      invariant forall j :: i <= j < |d.queued| ==> d.queued[j] == queued0[j]
    {
      if d.queued[i].request.tag == Some(t) {
        d.queued := d.queued[i := d.queued[i].(cancelled := true)];
      }
    }
    for i := 0 to |d.running|
      invariant |d.running| == |running0| && d.queued == CancelTagged(queued0, t)
      invariant forall j :: 0 <= j < i ==> d.running[j] == CancelIfTagged(running0[j], t)
      invariant forall j :: i <= j < |d.running| ==> d.running[j] == running0[j]
    {
      if d.running[i].request.tag == Some(t) {
        d.running := d.running[i := d.running[i].(cancelled := true)];
      }
    }
    r := Ok(());
  }

  /** The holder of the lazily built shared client (HttpUtils.mOkHttpClient). */
  class ClientRegistry {
    var shared: Client?

    constructor ()
      ensures shared == null
    {
      shared := null;
    }

    /** client(): builds the shared client on the first call and returns that same client on every call. */
    method GetClient() returns (c: Client)
      modifies this
      ensures old(shared) != null ==> c == old(shared) && shared == old(shared)
      ensures old(shared) == null ==> fresh(c) && c.config == DefaultConfig
      ensures shared == c
    {
      if shared == null {
        shared := new Client(DefaultConfig);
      }
      c := shared;
    }

    /** clientWithProgress(builder, null): without a listener the builder is ignored and client() is returned. */
    method ClientWithProgress(builder: Option<ClientConfig>) returns (c: Client)
      modifies this
      ensures old(shared) != null ==> c == old(shared) && shared == old(shared)
      ensures old(shared) == null ==> fresh(c) && c.config == DefaultConfig
      ensures shared == c
    {
      c := GetClient();
    }

    /** call(request, client): a new, uncancelled call on the given client, or on client() when it is null. */
    method NewCall(request: Request, client: Client?) returns (used: Client, call: Call)
      modifies this
      ensures client != null ==> used == client && shared == old(shared)
      ensures client == null && old(shared) != null ==> used == old(shared) && shared == old(shared)
      ensures client == null && old(shared) == null ==> fresh(used) && used.config == DefaultConfig && shared == used
      ensures call == Call(request, false)
    {
      if client != null {
        used := client;
      } else {
        used := GetClient();
      }
      call := Call(request, false);
    }
  }

  /** However many times client() is called, it is built once: the second call returns the first call's client. */
  method SharedClientIsStable(registry: ClientRegistry) returns (first: Client, second: Client)
    modifies registry
    ensures first == second && registry.shared == first
  {
    first := registry.GetClient();
    second := registry.GetClient();
  }

  /** Cancelling tag "a" among calls tagged "a", "b" and untagged cancels only the first. */
  lemma CancelExample(a: Request, b: Request, untagged: Request)
    requires a.tag == Some("a") && b.tag == Some("b") && untagged.tag.None?
    ensures CancelTagged([Call(a, false), Call(b, false), Call(untagged, false)], "a") ==
      [Call(a, true), Call(b, false), Call(untagged, false)]
  {
  }
}
