/** Normalisation of the parsed `config.json` value (js/config.js). */
module Config {
  import opened Text
  import opened Seqs
  import opened Sorting

  /** A parsed JSON value, plus the `undefined` a missing property reads as.
      Numbers are integers here. */
  datatype Json =
    | JNull
    | JUndefined
    | JBool(b: bool)
    | JNum(n: int)
    | JStr(s: string)
    | JArr(items: seq<Json>)
    | JObj(fields: map<string, Json>)

  /** `viewpointOrder: { enabled, order }`. */
  datatype ViewpointOrder = ViewpointOrder(enabled: bool, order: seq<string>)

  datatype AppConfig = AppConfig(viewpointOrder: ViewpointOrder)

  /** `DEFAULT_VIEWPOINT_ORDER`. */
  const DefaultViewpointOrder := ViewpointOrder(false, [])

  /** `cloneDefaultConfig`: the default settings, viewpoint ordering off
      and no order list. */
  function CloneDefaultConfig(): (c: AppConfig)
    ensures !c.viewpointOrder.enabled && c.viewpointOrder.order == []
  {
    AppConfig(ViewpointOrder(DefaultViewpointOrder.enabled, DefaultViewpointOrder.order))
  }

  /** JavaScript truthiness of a JSON value. */
  predicate Truthy(j: Json) {
    match j
    case JNull => false
    case JUndefined => false
    case JBool(b) => b
    case JNum(n) => n != 0
    case JStr(s) => s != ""
    case _ => true
  }

  /** `typeof j === 'object'` (null included). */
  predicate IsObject(j: Json) {
    j.JNull? || j.JArr? || j.JObj?
  }

  /** Property access `j.name`: an object's own field, else `undefined`. */
  function Get(j: Json, name: string): Json
  {
    if j.JObj? && name in j.fields then j.fields[name] else JUndefined
  }

  /** `String(j)`. An array is joined with `,`, its null and undefined
      elements reading as empty. */
  function ToText(j: Json): string
    decreases j, 0
  {
    match j
    case JNull => "null"
    case JUndefined => "undefined"
    case JBool(b) => if b then "true" else "false"
    case JNum(n) => IntToString(n)
    case JStr(s) => s
    case JArr(items) => JoinTexts(items)
    case JObj(_) => "[object Object]"
  }

  /** `Array.prototype.join(',')` on the elements. */
  function JoinTexts(items: seq<Json>): string
    decreases items, 0
  {
    if items == [] then ""
    else if |items| == 1 then ElementText(items[0])
    else ElementText(items[0]) + "," + JoinTexts(items[1..])
  }

  function ElementText(e: Json): string
    decreases e, 1
  {
    if e.JNull? || e.JUndefined? then "" else ToText(e)
  }

  /** The texts the loop of `toStringArray` considers, in order: null and
      undefined items skipped, the others stringified and trimmed, empty
      results dropped. */
  function Texts(items: seq<Json>): (ts: seq<string>)
    ensures forall k :: 0 <= k < |ts| ==> ts[k] != "" && IsTrimmed(ts[k])
  {
    if items == [] then []
    else
      var rest := Texts(items[..|items| - 1]);
      var x := Last(items);
      if x.JNull? || x.JUndefined? then rest
      else
        var t := Trim(ToText(x));
        if t == "" then rest else rest + [t]
  }

  function Id(t: string): string { t }

  /** `toStringArray` as a value: an array gives its texts without
      repeats, each at its first occurrence; anything else gives `[]`. */
  function StringArray(v: Json): seq<string>
  {
    if v.JArr? then KeysInOrder(Texts(v.items), Id) else []
  }

  lemma TextsSnoc(items: seq<Json>, x: Json)
    ensures Texts(items + [x])
      == if x.JNull? || x.JUndefined? || Trim(ToText(x)) == "" then Texts(items)
         else Texts(items) + [Trim(ToText(x))]
  {
    assert (items + [x])[..|items|] == items;
  }

  /** `toStringArray`: one pass with a `seen` set beside the result. */
  method ToStringArray(value: Json) returns (result: seq<string>)
    ensures result == StringArray(value)
  {
    if !value.JArr? {
      return [];
    }
    var items := value.items;
    var seen: set<string> := {};
    result := [];
    var i := 0;
    while i < |items|
      invariant 0 <= i <= |items|
      invariant result == KeysInOrder(Texts(items[..i]), Id)
      invariant forall t :: t in seen <==> t in result
    {
      var item := items[i];
      assert items[..i + 1] == items[..i] + [item];
      TextsSnoc(items[..i], item);
      if item.JNull? || item.JUndefined? {
        i := i + 1;
        continue;
      }
      var text := Trim(ToText(item));
      KeysInOrderSnoc(Texts(items[..i]), text, Id);
      if text == "" || text in seen {
        i := i + 1;
        continue;
      }
      seen := seen + {text};
      result := result + [text];
      i := i + 1;
    }
    assert items[..i] == items;
  }

  /** Non-arrays give `[]`; the result has no repeats, every element is
      trimmed and non-empty, a string is in it exactly when some item that
      is neither null nor undefined trims to it, and the strings keep the
      order of their first occurrence among the items. */
  lemma {:induction false} StringArraySpec(v: Json)
    ensures !v.JArr? ==> StringArray(v) == []
    ensures forall i, j :: 0 <= i < j < |StringArray(v)| ==> StringArray(v)[i] != StringArray(v)[j]
    ensures forall i :: 0 <= i < |StringArray(v)| ==> StringArray(v)[i] != "" && IsTrimmed(StringArray(v)[i])
    ensures v.JArr? ==> forall t :: t in StringArray(v) <==> t in Texts(v.items)
    ensures v.JArr? ==> forall n :: 0 <= n <= |v.items| ==> StringArray(JArr(v.items[..n])) <= StringArray(v)
  {
    if v.JArr? {
      var ts := Texts(v.items);
      KeysInOrderSpec(ts, Id);
      forall t
        ensures t in StringArray(v) <==> t in ts
      {
        if t in ts {
          var k :| 0 <= k < |ts| && ts[k] == t;
          assert Id(ts[k]) == t;
        }
      }
      forall i | 0 <= i < |StringArray(v)|
        ensures StringArray(v)[i] != "" && IsTrimmed(StringArray(v)[i])
      {
        assert StringArray(v)[i] in ts;
      }
      forall n | 0 <= n <= |v.items|
        ensures StringArray(JArr(v.items[..n])) <= StringArray(v)
      {
        TextsPrefix(v.items, n);
        KeysInOrderPrefix(ts, |Texts(v.items[..n])|, Id);
      }
    }
  }

  /** The texts of a prefix of the items are a prefix of the texts. */
  lemma {:induction false} TextsPrefix(items: seq<Json>, n: nat)
    requires n <= |items|
    ensures Texts(items[..n]) <= Texts(items)
    ensures Texts(items)[..|Texts(items[..n])|] == Texts(items[..n])
  {
    if n < |items| {
      var f := items[..|items| - 1];
      assert f[..n] == items[..n];
      TextsPrefix(f, n);
    } else {
      assert items[..n] == items;
    }
  }

  /** Item `x` is neither null nor undefined and trims to `t`. */
  predicate ReadsAs(x: Json, t: string) {
    !x.JNull? && !x.JUndefined? && Trim(ToText(x)) == t
  }

  /** A text comes from an item: `t` is a text exactly when it is not
      empty and some item reads as it. */
  lemma {:induction false} TextsMember(items: seq<Json>, t: string)
    ensures t in Texts(items) <==> t != "" && exists k :: 0 <= k < |items| && ReadsAs(items[k], t)
  {
    if items != [] {
      var f, x := items[..|items| - 1], Last(items);
      TextsMember(f, t);
      FrontLast(items);
      TextsSnocMember(f, x, t);
      var P := (y: Json) => ReadsAs(y, t);
      ExistsSnoc(f, x, P);
      assert (exists k :: 0 <= k < |items| && P(items[k])) <==> exists k :: 0 <= k < |items| && ReadsAs(items[k], t);
      assert (exists k :: 0 <= k < |f| && P(f[k])) <==> exists k :: 0 <= k < |f| && ReadsAs(f[k], t);
    }
  }

  lemma TextsSnocMember(f: seq<Json>, x: Json, t: string)
    ensures t in Texts(f + [x]) <==> t in Texts(f) || (t != "" && ReadsAs(x, t))
  {
    TextsSnoc(f, x);
  }

  /** `normalizeConfig`. */
  function NormalizeConfig(raw: Json): (c: AppConfig)
    ensures !Truthy(raw) || !IsObject(raw) ==> c == CloneDefaultConfig()
    ensures c.viewpointOrder.enabled <==> Get(Get(raw, "viewpointOrder"), "enabled") == JBool(true)
    ensures c.viewpointOrder.order == StringArray(Get(Get(raw, "viewpointOrder"), "order"))
  {
    var next := CloneDefaultConfig();
    if !Truthy(raw) || !IsObject(raw) then next
    else
      var vp := Get(raw, "viewpointOrder");
      if Truthy(vp) && IsObject(vp) then
        AppConfig(ViewpointOrder(Get(vp, "enabled") == JBool(true), StringArray(Get(vp, "order"))))
      else next
  }
}
