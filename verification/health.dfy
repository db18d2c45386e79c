/** The health-check endpoint `HealthCheckHandler.do_GET` (bot.py:42-50): path to response. */
module Health {

  datatype Response = Response(status: int, body: string)

  const OkBody: string := "OK - Telegram Translator Bot is running"

  /** GET on `path`: 200 with a fixed text for "/health" and "/", an empty 404 otherwise. */
  function HandleGet(path: string): (r: Response)
    ensures r.status == 200 <==> path == "/health" || path == "/"
    ensures r.status in {200, 404}
    ensures r.status == 200 ==> r.body == OkBody
    ensures r.status == 404 ==> r.body == []
  {
    if path == "/health" || path == "/" then Response(200, OkBody) else Response(404, [])
  }

  /** The request path is compared whole: a query string or a trailing slash gives 404. */
  lemma PathComparedWhole(extra: string)
    requires extra != []
    ensures HandleGet("/health" + extra).status == 404
    ensures extra != "health" ==> HandleGet("/" + extra).status == 404
  {
    assert |"/health" + extra| > |"/health"|;
    assert ("/" + extra)[1..] == extra;
  }
}
