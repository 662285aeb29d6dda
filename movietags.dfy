/**
 * The `render_messages` inclusion tag: Django messages from the request,
 * each paired with the CSS class for its level.
 */
module MovieTags {
  import opened Wrappers

  /** Django's message level constants. */
  const DEBUG := 10
  const INFO := 20
  const SUCCESS := 25
  const WARNING := 30
  const ERROR := 40

  /** `ALERT_CLASSES`: message level to CSS class. */
  const AlertClasses: map<int, string> := map[
    DEBUG := "alert-debug",
    INFO := "alert-info",
    SUCCESS := "alert-success",
    WARNING := "alert-warning",
    ERROR := "alert-error"]

  datatype Message = Message(message: string, level: int)

  /** The request in the template context; `messages` is `None` when it has no `_messages`. */
  datatype Request = Request(messages: Option<seq<Message>>)

  /** One entry of the tag's output: the text and `level_class`. */
  datatype Alert = Alert(message: string, levelClass: string)

  /** `ALERT_CLASSES.get(level, "alert-info")`. */
  function LevelClass(level: int): (c: string)
    ensures level in AlertClasses ==> c == AlertClasses[level]
    ensures level !in AlertClasses ==> c == "alert-info"
  {
    if level in AlertClasses then AlertClasses[level] else "alert-info"
  }

  /** Every level gets one of the five classes, and only INFO and the unmapped
      levels get `alert-info`. */
  lemma LevelClassRange(level: int)
    ensures LevelClass(level) in AlertClasses.Values
    ensures LevelClass(level) == "alert-info" <==> level !in {DEBUG, SUCCESS, WARNING, ERROR}
  {
    assert AlertClasses[INFO] == "alert-info";
  }

  /** `render_messages(context)`: no request gives no messages; otherwise one
      alert per message, in order, text copied, class looked up by level. */
  function RenderMessages(request: Option<Request>): (alerts: seq<Alert>)
    ensures request.None? ==> alerts == []
    ensures request.Some? ==>
      var msgs := request.value.messages.GetOr([]);
      && |alerts| == |msgs|
      && forall i :: 0 <= i < |msgs| ==>
           alerts[i].message == msgs[i].message && alerts[i].levelClass == LevelClass(msgs[i].level)
  {
    match request
    case None => []
    case Some(r) =>
      var msgs := r.messages.GetOr([]);
      seq(|msgs|, i requires 0 <= i < |msgs| => Alert(msgs[i].message, LevelClass(msgs[i].level)))
  }
}
