/** The two strings the list view derives from a host record
    (src/shuttle.tsx:117, 120): the item's title and its search keywords. */
module Display {
  import opened Values
  import opened Text
  import opened Outcomes
  import opened Flattening

  /** `String(v)`, as `Array.prototype.join` converts an element: an array
      is its elements joined with ",", an object prints as
      "[object Object]". */
  function JsText(v: Json): string
    decreases v, 1
  {
    match v
    case JNull => "null"
    case JBool(b) => if b then "true" else "false"
    case JNum(t) => t
    case JStr(s) => s
    case JArr(items) => ElementsText(items)
    case JObj(_) => "[object Object]"
  }

  /** `items.join(",")`, where a `null` element contributes nothing. */
  function ElementsText(items: seq<Json>): string
    decreases items, 0
  {
    if items == [] then ""
    else
      var first := if items[0].JNull? then "" else JsText(items[0]);
      if |items| == 1 then first else first + "," + ElementsText(items[1..])
  }

  /** `item.path.concat([item.name]).join(' / ')`. */
  function Title(h: Host): string {
    Join(h.path + [JsText(h.name)], " / ")
  }

  /** The title is the name alone at the top level, and otherwise the path
      joined with " / ", one more separator and the name. */
  lemma TitleShape(h: Host)
    ensures h.path == [] ==> Title(h) == JsText(h.name)
    ensures h.path != [] ==> Title(h) == Join(h.path, " / ") + " / " + JsText(h.name)
  {
    if h.path == [] {
      assert h.path + [JsText(h.name)] == [JsText(h.name)];
    } else {
      JoinAppend(h.path, " / ", JsText(h.name));
    }
  }

  /** A keyword as the list view receives it; `None` is `undefined`. */
  type Keyword = Option<Json>

  /** `item.path.concat([item.name, item.cmd, item.ip])`: the path segments,
      then the name, the command and the address, which is `undefined` when
      the command has no address after its `@`. */
  function Keywords(h: Host): (k: seq<Keyword>)
    ensures |k| == |h.path| + 3
    ensures forall i :: 0 <= i < |h.path| ==> k[i] == Some(JStr(h.path[i]))
    ensures k[|h.path|] == Some(h.name) && k[|h.path| + 1] == Some(JStr(h.cmd))
    ensures k[|h.path| + 2].None? <==> h.ip.None?
    ensures h.ip.Some? ==> k[|h.path| + 2] == Some(JStr(h.ip.value))
  {
    var ip := match h.ip case None => None case Some(a) => Some(JStr(a));
    Map(s => Some(JStr(s)), h.path) + [Some(h.name), Some(JStr(h.cmd)), ip]
  }

  /** How the view prints a keyword. */
  function KeywordText(k: Keyword): string {
    match k
    case None => ""
    case Some(v) => JsText(v)
  }

  /** The title is made of the keywords that come before the command: the
      two views of a record agree on its path and its name. */
  lemma TitleFromKeywords(h: Host)
    ensures Title(h) == Join(Map(KeywordText, Keywords(h)[..|h.path| + 1]), " / ")
  {
    var texts := Map(KeywordText, Keywords(h)[..|h.path| + 1]);
    assert texts == h.path + [JsText(h.name)];
  }
}
