/**
  The decisions SendNotification (utils/ntfy.go) makes before and after the
  HTTP exchange: the request it builds for a notification, and how it reads
  the outcome of sending it.
 */
module Ntfy {
  import opened Wrappers
  import opened Model
  import opened GoStrings

  const BaseUrl: string := "https://ntfy.sh/"

  /** The request body: the attachment file, or the message text. */
  datatype Body = FileBody(path: string) | TextBody(text: string)

  datatype Request = Request(verb: string, url: string, body: Body, headers: map<string, string>)

  /** The request built for a notification; headers are set in the order of the source, later sets overriding. */
  function BuildRequest(n: Notification): (req: Request)
    ensures req.verb == "PUT" <==> n.filename != ""
    ensures req.verb == "POST" <==> n.filename == ""
    ensures req.body == (if n.filename != "" then FileBody(n.filename) else TextBody(n.message))
    ensures |req.url| == |BaseUrl| + |n.topic| && req.url[..|BaseUrl|] == BaseUrl && req.url[|BaseUrl|..] == n.topic
    ensures "Content-Type" in req.headers
    ensures req.headers["Content-Type"] == (if n.filename != "" then "image/png" else "text/plain")
    ensures "Title" in req.headers <==> n.title != ""
    ensures "Title" in req.headers ==> req.headers["Title"] == n.title
    ensures "Tags" in req.headers <==> |n.tags| > 0
    ensures "Tags" in req.headers ==> req.headers["Tags"] == Join(n.tags, ',')
    ensures "Filename" in req.headers <==> n.filename != ""
    ensures "Filename" in req.headers ==> req.headers["Filename"] == n.filename
    ensures "Priority" in req.headers
    ensures req.headers["Priority"] == (if n.priority != 0 then Itoa(n.priority) else "3")
    ensures req.headers.Keys <= {"Content-Type", "Title", "Tags", "Filename", "Priority"}
  {
    var url := BaseUrl + n.topic;
    var base :=
      if n.filename != "" then Request("PUT", url, FileBody(n.filename), map[])
      else Request("POST", url, TextBody(n.message), map[]);
    var h0 := map["Content-Type" := "text/plain"];
    var h1 := if n.title != "" then h0["Title" := n.title] else h0;
    var h2 := if |n.tags| > 0 then h1["Tags" := Join(n.tags, ',')] else h1;
    var h3 := if n.filename != "" then h2["Filename" := n.filename]["Content-Type" := "image/png"] else h2;
    var h4 := if n.priority != 0 then h3["Priority" := Itoa(n.priority)] else h3["Priority" := "3"];
    base.(headers := h4)
  }

  /** The Tags header splits back into the tags when no tag contains a comma. */
  lemma TagsHeaderRoundTrip(n: Notification)
    requires |n.tags| > 0
    requires forall k :: 0 <= k < |n.tags| ==> ',' !in n.tags[k]
    ensures Split(BuildRequest(n).headers["Tags"], ',') == n.tags
  {
    SplitJoin(n.tags, ',');
  }

  /** The Priority header reads back as the notification's priority, with 0 meaning the default 3. */
  lemma PriorityHeaderRoundTrip(n: Notification)
    ensures ParseDecimal(BuildRequest(n).headers["Priority"]) == Some(if n.priority != 0 then n.priority else 3)
  {
    if n.priority != 0 {
      ItoaRoundTrip(n.priority);
    } else {
      assert ParseDecimal("3") == Some(3) by {
        assert AllDigits("3");
        assert DecimalValue("3") == 10 * DecimalValue("") + DigitValue('3');
      }
    }
  }

  /** A 2xx status is a delivered notification. */
  predicate IsSuccessStatus(status: int) {
    200 <= status && status < 300
  }

  /** What happened to a request: it could not be built, it could not be sent, or a response came back. */
  datatype Transport = RequestInvalid(err: string) | SendFailed(err: string) | Responded(status: int, body: string)

  /** SendNotification returns nothing: every failure ends as a log line, so its outcome is only a log record. */
  datatype Delivery = Delivered | Dropped(reason: string)

  /** The request that went out (None when it could not be created) and what became of the notification. */
  datatype Attempt = Attempt(sent: Option<Request>, delivery: Delivery)

  function SendNotification(n: Notification, t: Transport): (a: Attempt)
    ensures a.sent.Some? <==> !t.RequestInvalid?
    ensures a.sent.Some? ==> a.sent.value == BuildRequest(n)
    ensures a.delivery.Delivered? <==> t.Responded? && 200 <= t.status < 300
    ensures t.RequestInvalid? ==> a.delivery == Dropped("can't create request to NTFY")
    ensures t.SendFailed? ==> a.delivery == Dropped("can't send request to NTFY")
  {
    match t
    case RequestInvalid(_) => Attempt(None, Dropped("can't create request to NTFY"))
    case SendFailed(_) => Attempt(Some(BuildRequest(n)), Dropped("can't send request to NTFY"))
    case Responded(status, _) =>
      Attempt(Some(BuildRequest(n)), if IsSuccessStatus(status) then Delivered else Dropped("NTFY error response"))
  }
}
