/**
 * The gameplay page stores each gameplay element as a task. Its "logic"
 * text travels inside that description between two tags, and its type
 * is derived again every time the tasks are loaded.
 */
module GameplayManagement {
  import opened Text
  import opened Sequences

  const StartTag := "[LOGIC_START]"
  const EndTag := "[LOGIC_END]"

  datatype ElementType = Rule | Event | Script | Other

  datatype Element = Element(id: string, name: string, kind: ElementType, description: string, logic: Option<string>)

  datatype Decoded = Decoded(description: string, logic: Option<string>)

  /** A task as the tasks endpoint returns it; the description column may be NULL. */
  datatype StoredTask = StoredTask(id: string, title: string, description: Option<string>)

  datatype TaskPayload = TaskPayload(title: string, description: string, projectId: string, status: string, priority: string)

  datatype SaveRequest = Post(payload: TaskPayload) | Put(id: string, payload: TaskPayload)

  /** JavaScript truthiness of an optional string: absent and "" are both falsy. */
  predicate Present(s: Option<string>) {
    s.Some? && s.value != ""
  }

  /** `encodeDescription`: a non-empty logic is put in front of the description, between the tags. */
  function EncodeDescription(desc: string, logic: string): (r: string)
    ensures EndsWith(r, desc)
    ensures logic == "" ==> r == desc
  {
    if logic != "" then StartTag + logic + EndTag + desc else desc
  }

  /** `decodeDescription`: split off the text between the first start tag and the first end tag. */
  function DecodeDescription(full: string): (r: Decoded)
    ensures r.logic.None? ==> r.description == full
  {
    var startIndex := IndexOf(full, StartTag);
    var endIndex := IndexOf(full, EndTag);
    if startIndex != -1 && endIndex != -1 && startIndex < endIndex then
      Decoded(Substring(full, endIndex + |EndTag|, |full|), Some(Substring(full, startIndex + |StartTag|, endIndex)))
    else
      Decoded(full, None)
  }

  /** Decoding splits exactly when both tags occur and the first end tag lies after the first start tag. */
  lemma DecodeSplitsIff(full: string)
    ensures DecodeDescription(full).logic.Some? <==>
      (Contains(full, StartTag) && Contains(full, EndTag) && IndexOf(full, StartTag) < IndexOf(full, EndTag))
  {
  }

  lemma StartTagBracket(k: int)
    requires 0 < k < |StartTag|
    ensures StartTag[k] != '['
  {
  }

  lemma EndTagBracket(k: int)
    requires 0 < k < |EndTag|
    ensures EndTag[k] != '['
  {
  }

  /** An end tag that occurs after a start tag cannot begin inside that start tag. */
  lemma EndTagAfterStartTag(full: string, i: int, j: int)
    requires OccursAt(full, StartTag, i) && OccursAt(full, EndTag, j) && i < j
    ensures i + |StartTag| <= j
  {
    if j < i + |StartTag| {
      StartTagBracket(j - i);
      OccursAtChar(full, EndTag, j, 0);
      OccursAtChar(full, StartTag, i, j - i);
    }
  }

  /** When decoding splits, logic and description are the text between the tags and the text after the end tag. */
  lemma DecodeSplitParts(full: string)
    requires DecodeDescription(full).logic.Some?
    ensures var r := DecodeDescription(full);
      var i, j := IndexOf(full, StartTag), IndexOf(full, EndTag);
      0 <= i && i + |StartTag| <= j && j + |EndTag| <= |full| &&
      r.logic.value == full[i + |StartTag|..j] && r.description == full[j + |EndTag|..]
  {
    EndTagAfterStartTag(full, IndexOf(full, StartTag), IndexOf(full, EndTag));
  }

  /**
   * When decoding splits, the input is the dropped prefix (which holds no
   * start tag), the start tag, the logic, the end tag and the description,
   * in that order; and the logic holds no end tag.
   */
  lemma DecodeSplit(full: string)
    requires DecodeDescription(full).logic.Some?
    ensures var r := DecodeDescription(full);
      var i := IndexOf(full, StartTag);
      0 <= i && full == full[..i] + StartTag + r.logic.value + EndTag + r.description
      && !Contains(full[..i], StartTag) && !Contains(r.logic.value, EndTag)
  {
    DecodeSplitParts(full);
    var i, j := IndexOf(full, StartTag), IndexOf(full, EndTag);
    var a, b := i + |StartTag|, j + |EndTag|;
    assert full[i..a] == StartTag && full[j..b] == EndTag;
    Reassemble(full, i, a, j, b, StartTag, EndTag);
    NoOccurrenceInSlice(full, StartTag, 0, i);
    assert full[0..i] == full[..i];
    NoOccurrenceInSlice(full, EndTag, a, j);
  }

  /** The end tag does not overlap itself, so it cannot straddle a logic text and the tag that follows it. */
  lemma NoEndTagBefore(logic: string, desc: string, p: int)
    requires !Contains(logic, EndTag)
    requires 0 <= p < |StartTag| + |logic|
    ensures !OccursAt(StartTag + logic + EndTag + desc, EndTag, p)
  {
    var s := StartTag + logic + EndTag + desc;
    var e := |StartTag| + |logic|;
    if p == 0 {
      OccursAtChar(s, EndTag, 0, 7);
      assert s[7] == StartTag[7];
    } else if p < |StartTag| {
      StartTagBracket(p);
      OccursAtChar(s, EndTag, p, 0);
      assert s[p] == StartTag[p];
    } else if p + |EndTag| <= e {
      OccursInSlice(s, EndTag, |StartTag|, e, p - |StartTag|);
      assert s[|StartTag|..e] == logic;
    } else {
      EndTagBracket(e - p);
      OccursAtChar(s, EndTag, p, e - p);
      assert s[e] == EndTag[0];
    }
  }

  /** Decoding an encoded description gives back the description and the logic. */
  lemma EncodeDecodeRoundTrip(desc: string, logic: string)
    requires logic != "" && !Contains(logic, EndTag)
    ensures DecodeDescription(EncodeDescription(desc, logic)) == Decoded(desc, Some(logic))
  {
    var s := EncodeDescription(desc, logic);
    var e := |StartTag| + |logic|;
    assert s[..|StartTag|] == StartTag;
    assert OccursAt(s, StartTag, 0);
    assert IndexOf(s, StartTag) == 0;
    assert s[e..e + |EndTag|] == EndTag;
    assert OccursAt(s, EndTag, e);
    forall p | 0 <= p < e ensures !OccursAt(s, EndTag, p) {
      NoEndTagBefore(logic, desc, p);
    }
    assert IndexOf(s, EndTag) == e;
    assert s[|StartTag|..e] == logic;
    assert s[e + |EndTag|..] == desc;
  }

  /** Encoding a split decoding again restores the input from its start tag on. */
  lemma DecodeEncodeRoundTrip(full: string)
    requires DecodeDescription(full).logic.Some? && DecodeDescription(full).logic.value != ""
    ensures var r := DecodeDescription(full);
      EncodeDescription(r.description, r.logic.value) == full[IndexOf(full, StartTag)..]
  {
    DecodeSplit(full);
    var r := DecodeDescription(full);
    var i := IndexOf(full, StartTag);
    EncodeAfterPrefix(full[..i], r.logic.value, r.description);
  }

  lemma EncodeAfterPrefix(p: string, logic: string, desc: string)
    requires logic != ""
    ensures EncodeDescription(desc, logic) == (p + StartTag + logic + EndTag + desc)[|p|..]
  {
    var rest := StartTag + logic + EndTag + desc;
    assert p + StartTag + logic + EndTag + desc == p + rest;
    DropPrefix(p, rest);
  }

  /** The `derivedType` chain of `fetchGameplayElements`. */
  function DerivedType(title: string, logic: Option<string>): ElementType {
    if Present(logic) then Script
    else if Contains(LowerAscii(title), "规则") then Rule
    else if Contains(LowerAscii(title), "事件") then Event
    else Other
  }

  /**
   * The type follows a fixed precedence: logic, then a title containing
   * 规则, then one containing 事件, else other. Lower-casing the title
   * cannot change whether it contains these words.
   */
  lemma DerivedTypePrecedence(title: string, logic: Option<string>)
    ensures DerivedType(title, logic) == Script <==> Present(logic)
    ensures DerivedType(title, logic) == Rule <==> !Present(logic) && Contains(title, "规则")
    ensures DerivedType(title, logic) == Event <==>
      !Present(logic) && !Contains(title, "规则") && Contains(title, "事件")
    ensures DerivedType(title, logic) == Other <==>
      !Present(logic) && !Contains(title, "规则") && !Contains(title, "事件")
  {
    ContainsLowerAscii(title, "规则");
    ContainsLowerAscii(title, "事件");
  }

  /** One task of the response mapped to a gameplay element. */
  function ToElement(task: StoredTask): (e: Element)
    ensures e.id == task.id && e.name == task.title
    ensures var d := DecodeDescription(if Present(task.description) then task.description.value else "");
      e.description == d.description && e.logic == d.logic
    ensures e.kind == DerivedType(task.title, e.logic)
  {
    var d := DecodeDescription(if Present(task.description) then task.description.value else "");
    Element(task.id, task.title, DerivedType(task.title, d.logic), d.description, d.logic)
  }

  /** `handleSave`: the request it sends, or None when it refuses before sending anything. */
  function SaveElement(name: string, description: string, logic: string,
                       selectedProjectId: Option<string>, editing: Option<Element>): (r: Option<SaveRequest>)
    ensures r.None? <==> IsBlank(name) || IsBlank(description) || !Present(selectedProjectId)
    ensures r.Some? ==> r.value.payload == TaskPayload(name, EncodeDescription(description, logic),
                                                       selectedProjectId.value, "todo", "medium")
    ensures r.Some? ==> (r.value.Put? <==> editing.Some?)
    ensures r.Some? && r.value.Put? ==> r.value.id == editing.value.id
  {
    if IsBlank(name) || IsBlank(description) || !Present(selectedProjectId) then None
    else
      var payload := TaskPayload(name, EncodeDescription(description, logic), selectedProjectId.value, "todo", "medium");
      if editing.Some? then Some(Put(editing.value.id, payload)) else Some(Post(payload))
  }

  /**
   * An element saved with logic is loaded back as a script with the same
   * name, description and logic. The type chosen in the dialog is not part
   * of the request, so nothing else survives the reload.
   */
  lemma SaveThenLoad(id: string, name: string, description: string, logic: string,
                     selectedProjectId: Option<string>, editing: Option<Element>)
    requires SaveElement(name, description, logic, selectedProjectId, editing).Some?
    requires logic != "" && !Contains(logic, EndTag)
    ensures var p := SaveElement(name, description, logic, selectedProjectId, editing).value.payload;
      ToElement(StoredTask(id, p.title, Some(p.description))) == Element(id, name, Script, description, Some(logic))
  {
    EncodeDecodeRoundTrip(description, logic);
  }

  /**
   * An element saved without logic, whose description holds no start tag,
   * is loaded back with its name and description, no logic and the type
   * its name alone gives.
   */
  lemma SaveThenLoadNoLogic(id: string, name: string, description: string,
                            selectedProjectId: Option<string>, editing: Option<Element>)
    requires SaveElement(name, description, "", selectedProjectId, editing).Some?
    requires !Contains(description, StartTag)
    ensures var p := SaveElement(name, description, "", selectedProjectId, editing).value.payload;
      ToElement(StoredTask(id, p.title, Some(p.description))) == Element(id, name, DerivedType(name, None), description, None)
  {
  }

  /** `el => el.id !== id`, the filter of `handleDelete`. */
  function WithoutElement(elements: seq<Element>, id: string): (r: seq<Element>)
    ensures forall i :: 0 <= i < |r| ==> r[i].id != id
  {
    Filter(elements, (e: Element) => e.id != id)
  }

  /** Deleting removes exactly the elements with that id, keeps the rest and keeps their order. */
  lemma WithoutElementExactly(a: seq<Element>, b: seq<Element>, id: string)
    ensures forall e :: e in a && e.id != id ==> e in WithoutElement(a, id)
    ensures WithoutElement(a + b, id) == WithoutElement(a, id) + WithoutElement(b, id)
    ensures (forall i :: 0 <= i < |a| ==> a[i].id != id) ==> WithoutElement(a, id) == a
  {
    FilterConcat(a, b, (e: Element) => e.id != id);
    if forall i :: 0 <= i < |a| ==> a[i].id != id {
      FilterAll(a, (e: Element) => e.id != id);
    }
  }

  /** The component state of the gameplay page that its handlers replace. */
  class GameplayPage {
    var selectedProjectId: Option<string>
    var elements: seq<Element>

    constructor()
      ensures selectedProjectId == None && elements == []
    {
      selectedProjectId := None;
      elements := [];
    }

    /**
     * `fetchGameplayElements`: without a selected project the list is
     * cleared; otherwise `response` is the list of tasks the endpoint answered
     * with, or None when the request failed (the list is then kept).
     */
    method LoadElements(response: Option<seq<StoredTask>>)
      modifies this
      ensures selectedProjectId == old(selectedProjectId)
      ensures !Present(selectedProjectId) ==> elements == []
      ensures Present(selectedProjectId) && response.None? ==> elements == old(elements)
      ensures Present(selectedProjectId) && response.Some? ==>
        |elements| == |response.value| &&
        forall i :: 0 <= i < |elements| ==> elements[i] == ToElement(response.value[i])
    {
      if !Present(selectedProjectId) {
        elements := [];
        return;
      }
      if response.Some? {
        var tasks := response.value;
        elements := seq(|tasks|, i requires 0 <= i < |tasks| => ToElement(tasks[i]));
      }
    }

    /**
     * `handleDelete`: sends the request only when a project is selected;
     * `succeeded` is whether the server answered OK.
     */
    method HandleDelete(id: string, succeeded: bool) returns (sent: bool)
      modifies this
      ensures sent <==> Present(selectedProjectId)
      ensures selectedProjectId == old(selectedProjectId)
      ensures elements == if sent && succeeded then WithoutElement(old(elements), id) else old(elements)
    {
      if !Present(selectedProjectId) {
        return false;
      }
      sent := true;
      if succeeded {
        elements := WithoutElement(elements, id);
      }
    }
  }
}
