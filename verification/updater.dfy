/** compile.js `updater`: how each directive renders a value into a DOM string. A view holds
    the current string (text content, inner HTML, class name or input value); an update
    computes the next one from it, the new value and the value rendered before. */
module Updaters {
  import opened Wrappers
  import opened Values
  import opened Seqs
  import opened Text
  import opened Store

  /** `textUpdater`, `htmlUpdater` and `modelUpdater`: `undefined` renders as the empty string,
      anything else is assigned to the DOM property as it is. */
  function ContentUpdate(v: Value): (r: string)
    ensures v.Undefined? || v.Null? ==> r == ""
    ensures v.Str? ==> r == v.s
    ensures !v.Undefined? ==> r == DomString(v)
  {
    if v.Undefined? then "" else DomString(v)
  }

  /** `classUpdater`: the first occurrence of the previous value's string is cut out of the class
      name, then one trailing whitespace character; a space separates what is left from the
      new value's string when both are non-empty. */
  function ClassUpdate(cls: string, v: Value, prev: Value): (r: string)
    ensures |JsString(v)| <= |r| && r[|r| - |JsString(v)|..] == JsString(v)
    ensures var c := StripTrailingSpace(RemoveFirst(cls, JsString(prev)));
            && c <= r
            && (|r| == |c| + 1 + |JsString(v)| <==> c != "" && JsString(v) != "")
            && (|r| == |c| + |JsString(v)| <==> c == "" || JsString(v) == "")
            && (c != "" && JsString(v) != "" ==> r[|c|] == ' ')
  {
    var c := StripTrailingSpace(RemoveFirst(cls, JsString(prev)));
    var space := if c != "" && JsString(v) != "" then " " else "";
    c + space + JsString(v)
  }

  /** The updater of a directive kind, applied to the view's current string. */
  function Update(kind: Kind, cur: string, v: Value, prev: Value): (r: string)
    ensures kind != ClassKind ==> (v.Undefined? || v.Null? ==> r == "") && (v.Str? ==> r == v.s)
    ensures kind != ClassKind && !v.Undefined? ==> r == DomString(v)
    ensures kind == ClassKind ==> |JsString(v)| <= |r| && r[|r| - |JsString(v)|..] == JsString(v)
    ensures kind == ClassKind ==> StripTrailingSpace(RemoveFirst(cur, JsString(prev))) <= r
    ensures kind == ClassKind ==> r == ClassUpdate(cur, v, prev)
  {
    match kind
    case ClassKind => ClassUpdate(cur, v, prev)
    case _ => ContentUpdate(v)
  }

  /** A class name made of a remainder `c` and the previous value's string `o` after a space becomes
      `c`, a space and the new value's string, provided `o` first occurs there. */
  lemma ClassSwap(c: string, o: Value, v: Value)
    requires c != "" && JsString(v) != ""
    requires |c| == 0 || !IsJsSpace(c[|c| - 1])
    requires IndexOf(c + " " + JsString(o), JsString(o)) == Some(|c| + 1)
    ensures ClassUpdate(c + " " + JsString(o), v, o) == c + " " + JsString(v)
  {
    var cls := c + " " + JsString(o);
    assert RemoveFirst(cls, JsString(o)) == c + " ";
    assert StripTrailingSpace(c + " ") == c;
  }
}
