/** Per-type text extraction from normalized records (chunks/extract.go). */
module Extract {
  import opened Wrappers
  import opened Text

  /** Decoded JSON. `text` is the marshalled form of a value that is not a string. */
  datatype Json =
    | Null
    | Str(s: string)
    | Scalar(text: string)
    | Arr(items: seq<Json>, text: string)
    | Obj(fields: map<string, Json>, text: string)

  function Field(fields: map<string, Json>, name: string): Json {
    if name in fields then fields[name] else Null
  }

  function CleanText(v: Json): string {
    match v
    case Null => ""
    case Str(s) => TrimSpace(s)
    case _ => TrimSpace(v.text)
  }

  function JoinNonEmpty(parts: seq<string>, sep: string): string {
    Join(Clean(parts), sep)
  }

  lemma CleanSnoc(parts: seq<string>, i: nat)
    requires i < |parts|
    ensures var p := TrimSpace(parts[i]);
            Clean(parts[..i + 1]) == if p == "" then Clean(parts[..i]) else Clean(parts[..i]) + [p]
  {
    assert parts[..i + 1] == parts[..i] + [parts[i]];
    CleanAppend(parts[..i], [parts[i]]);
    assert Clean([parts[i]][1..]) == [];
  }

  method JoinNonEmptyParts(parts: seq<string>, sep: string) returns (joined: string)
    ensures joined == JoinNonEmpty(parts, sep)
  {
    var out: seq<string> := [];
    for i := 0 to |parts|
      invariant out == Clean(parts[..i])
    {
      CleanSnoc(parts, i);
      if TrimSpace(parts[i]) == "" {
        continue;
      }
      out := out + [TrimSpace(parts[i])];
    }
    assert parts[..|parts|] == parts;
    return Join(out, sep);
  }

  /** The line of one message; None for a non-object or a message without text. */
  function MessageLine(item: Json): Option<string> {
    if !item.Obj? then None
    else
      var t := CleanText(Field(item.fields, "text"));
      var text := if t == "" then CleanText(Field(item.fields, "text_body")) else t;
      var a := CleanText(Field(item.fields, "author"));
      var author := if a == "" then CleanText(Field(item.fields, "author_ref")) else a;
      if text == "" then None
      else if author != "" then Some(author + ": " + text)
      else Some(text)
  }

  function MessageLines(items: seq<Json>): seq<string> {
    if items == [] then []
    else
      AsSeq(MessageLine(items[0])) + MessageLines(items[1..])
  }

  function AsSeq<T>(o: Option<T>): seq<T> {
    if o.None? then [] else [o.value]
  }

  lemma {:induction false} MessageLinesAppend(a: seq<Json>, b: seq<Json>)
    ensures MessageLines(a + b) == MessageLines(a) + MessageLines(b)
  {
    if a == [] {
      assert a + b == b;
    } else {
      assert (a + b)[1..] == a[1..] + b;
      MessageLinesAppend(a[1..], b);
    }
  }

  lemma MessageSnoc(items: seq<Json>, i: nat)
    requires i < |items|
    ensures MessageLines(items[..i + 1]) == MessageLines(items[..i]) + AsSeq(MessageLine(items[i]))
  {
    assert items[..i + 1] == items[..i] + [items[i]];
    MessageLinesAppend(items[..i], [items[i]]);
    assert MessageLines([items[i]][1..]) == [];
  }

  function JoinMessages(v: Json): string {
    if v.Arr? then Join(MessageLines(v.items), "\n") else ""
  }

  method JoinMessageItems(v: Json) returns (joined: string)
    ensures joined == JoinMessages(v)
  {
    if !v.Arr? {
      return "";
    }
    var lines: seq<string> := [];
    for i := 0 to |v.items|
      invariant lines == MessageLines(v.items[..i])
    {
      MessageSnoc(v.items, i);
      var item := v.items[i];
      if !item.Obj? {
        continue;
      }
      var text := CleanText(Field(item.fields, "text"));
      if text == "" {
        text := CleanText(Field(item.fields, "text_body"));
      }
      if text == "" {
        continue;
      }
      var author := CleanText(Field(item.fields, "author"));
      if author == "" {
        author := CleanText(Field(item.fields, "author_ref"));
      }
      if author != "" {
        lines := lines + [author + ": " + text];
      } else {
        lines := lines + [text];
      }
    }
    assert v.items[..|v.items|] == v.items;
    return Join(lines, "\n");
  }

  datatype Shape =
    | Single(name: string)
    | Thread
    | Fields(names: seq<string>, sep: string)

  /** Which payload fields carry the prose of a record type; None for an unknown type. */
  function ShapeOf(recordType: string): Option<Shape> {
    match recordType
    case "chat_message" => Some(Single("text_body"))
    case "chat_thread" => Some(Thread)
    case "docs_page" => Some(Fields(["title", "body_text"], BREAK))
    case "meeting_transcript" => Some(Fields(["title", "summary", "body_text"], BREAK))
    case "calendar_event" =>
      Some(Fields(["summary", "parsed_meeting_topic", "parsed_project_title"], " \U{2014} "))
    case "email_message" => Some(Fields(["subject", "body_text"], BREAK))
    case "m365_mail_message" => Some(Fields(["subject", "body_preview"], BREAK))
    case "m365_teams_message" => Some(Single("text_body"))
    case "m365_cloud_file" => Some(Fields(["title", "body_text"], BREAK))
    case "m365_calendar_event" => Some(Fields(["subject", "body_preview"], BREAK))
    case "work_item" => Some(Fields(["title", "description"], BREAK))
    case "support_ticket" => Some(Fields(["subject", "description", "body_text"], BREAK))
    case "support_conversation" => Some(Fields(["subject", "description", "body_text"], BREAK))
    case "crm_record" => Some(Fields(["title", "description", "notes"], BREAK))
    case "google_drive_document" => Some(Fields(["title", "body_text"], BREAK))
    case _ => None
  }

  function CleanFields(fields: map<string, Json>, names: seq<string>): seq<string> {
    seq(|names|, i requires 0 <= i < |names| => CleanText(Field(fields, names[i])))
  }

  /** `payload` is None when the stored bytes are empty or not JSON. JSON null decodes to no fields. */
  function ExtractText(recordType: string, payload: Option<Json>): Option<string> {
    if payload.None? || !(payload.value.Obj? || payload.value.Null?) then None
    else
      var fields := if payload.value.Obj? then payload.value.fields else map[];
      match ShapeOf(recordType)
      case None => None
      case Some(Single(name)) => Some(CleanText(Field(fields, name)))
      case Some(Thread) => Some(JoinMessages(Field(fields, "messages")))
      case Some(Fields(names, sep)) => Some(JoinNonEmpty(CleanFields(fields, names), sep))
  }

  // ---- joining keeps the paragraphs of every part

  lemma JoinNonEmptyParagraphs(parts: seq<string>)
    ensures Paragraphs(JoinNonEmpty(parts, BREAK)) == AllParagraphs(parts)
  {
    AllParagraphsOfClean(parts);
    ParagraphsOfJoined(Clean(parts));
  }

  /** A record's extracted text has its fields' paragraphs, field by field, in order. */
  lemma ExtractedParagraphs(recordType: string, fields: map<string, Json>, text: string)
    requires ShapeOf(recordType).Some? && ShapeOf(recordType).value.Fields?
    requires ShapeOf(recordType).value.sep == BREAK
    ensures ExtractText(recordType, Some(Obj(fields, text))).Some?
    ensures Paragraphs(ExtractText(recordType, Some(Obj(fields, text))).value)
            == AllParagraphs(CleanFields(fields, ShapeOf(recordType).value.names))
  {
    JoinNonEmptyParagraphs(CleanFields(fields, ShapeOf(recordType).value.names));
  }
}
