/**
 * `POST /api/share-links`: an authenticated request naming a Notion page gets that page's
 * share id and public URL. The session lookup, the parsed body and the outcome of
 * `getOrCreateShareLink` for the requested page are inputs.
 */
module ShareLinksRoute {
  import opened Wrappers
  import Json
  import Env
  import Constants
  import ShareLinks

  /** A thrown value as the `catch` clause sees it. */
  datatype Thrown = ErrorObject(message: string) | OtherValue

  datatype Auth =
    | AuthThrew(thrown: Thrown)       // creating the client or `getUser()` throws
    | Anonymous
    | SignedIn

  datatype Body =
    | Unparseable                     // `request.json()` rejects
    | NullBody                        // the body is `null`: reading `notionPageId` throws a TypeError
    | Parsed(notionPageId: Json.Field<char>)

  datatype ApiBody =
    | Failure(error: string, details: Option<string>)
    | Created(shareId: string, shareUrl: string)

  datatype Response = Response(status: nat, body: ApiBody)

  const UnauthorizedText := "인증이 필요합니다."
  const BadBodyText := "요청 데이터가 올바르지 않습니다."
  const MissingPageIdText := "notionPageId는 필수입니다."
  const FailureText := "공유 링크 생성 실패"
  const UnknownErrorText := "알 수 없는 오류"
  /** V8's message for reading a property of `null`. */
  const NullPropertyMessage := "Cannot read properties of null (reading 'notionPageId')"

  /** `error instanceof Error ? error.message : '알 수 없는 오류'`. */
  function Details(t: Thrown): string {
    if t.ErrorObject? then t.message else UnknownErrorText
  }

  function ServerError(t: Thrown): Response { Response(500, Failure(FailureText, Some(Details(t)))) }

  /** `${appUrl}/invoice/${shareId}`, with `appUrl` falling back to the development URL. */
  function ShareUrl(env: Env.Environment, shareId: string): (url: string)
    ensures url == Env.AppUrl(env) + Constants.InvoicePublic(shareId)
  {
    Env.AppUrl(env) + "/invoice/" + shareId
  }

  /** `!body.notionPageId || typeof body.notionPageId !== 'string'` rejects all but a non-empty string. */
  predicate ValidPageId(f: Json.Field<char>) { !Json.Falsy(f) && f.JsonString? }

  /** `POST(request)`. */
  function Post(auth: Auth, body: Body, env: Env.Environment,
                getOrCreate: string -> Result<ShareLinks.ShareLink, Thrown>): (r: Response)
    ensures r.status in {200, 400, 401, 500}
    ensures r.status == 401 <==> auth == Anonymous
    ensures r.status == 401 ==> r.body == Failure(UnauthorizedText, None)
    ensures r.status == 400 <==>
      auth == SignedIn && (body == Unparseable || (body.Parsed? && !ValidPageId(body.notionPageId)))
    ensures r.status == 200 <==>
      auth == SignedIn && body.Parsed? && ValidPageId(body.notionPageId) &&
      getOrCreate(body.notionPageId.units).Ok?
    ensures r.status == 200 ==>
      var link := getOrCreate(body.notionPageId.units).value;
      r.body == Created(link.shareId, ShareUrl(env, link.shareId))
    ensures r.status == 500 ==> r.body.Failure? && r.body.error == FailureText && r.body.details.Some?
  {
    match auth
    case AuthThrew(t) => ServerError(t)
    case Anonymous => Response(401, Failure(UnauthorizedText, None))
    case SignedIn =>
      match body
      case Unparseable => Response(400, Failure(BadBodyText, None))
      case NullBody => ServerError(ErrorObject(NullPropertyMessage))
      case Parsed(pageId) =>
        if !ValidPageId(pageId) then Response(400, Failure(MissingPageIdText, None))
        else
          match getOrCreate(pageId.units)
          case Err(t) => ServerError(t)
          case Ok(link) => Response(200, Created(link.shareId, ShareUrl(env, link.shareId)))
  }

  /** The session is checked first: without a user the body and the store are never looked at. */
  lemma AnonymousIgnoresRequest(body1: Body, body2: Body, env: Env.Environment,
                                store1: string -> Result<ShareLinks.ShareLink, Thrown>,
                                store2: string -> Result<ShareLinks.ShareLink, Thrown>)
    ensures Post(Anonymous, body1, env, store1) == Post(Anonymous, body2, env, store2)
  {
  }

  /** Only the requested page's outcome matters to the response. */
  lemma ResponseDependsOnRequestedPageOnly(auth: Auth, body: Body, env: Env.Environment,
                                  store1: string -> Result<ShareLinks.ShareLink, Thrown>,
                                  store2: string -> Result<ShareLinks.ShareLink, Thrown>)
    requires body.Parsed? && body.notionPageId.JsonString? ==>
      store1(body.notionPageId.units) == store2(body.notionPageId.units)
    ensures Post(auth, body, env, store1) == Post(auth, body, env, store2)
  {
  }

  /** The public path of the returned URL names the returned share id. */
  lemma ShareUrlNamesShareId(env: Env.Environment, shareId: string)
    ensures var url := ShareUrl(env, shareId);
      Constants.ParseInvoicePublic(url[|Env.AppUrl(env)|..]) == Some(shareId)
  {
    var url := ShareUrl(env, shareId);
    assert url[|Env.AppUrl(env)|..] == Constants.InvoicePublic(shareId);
    Constants.InvoicePublicRoundTrip(shareId, Constants.InvoicePublic(shareId));
  }
}
