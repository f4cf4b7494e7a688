/**
 * The decoders of `src/util/data-parse.ts`: positional tuples in, named
 * metadata records out, written into a registry keyed by tag name.
 * The source mutates records in place; here every decoder returns the
 * updated value.
 */
module DataParse {
  import opened Wrappers
  import opened JsValues
  import opened AttrNames
  import opened Metadata

  /** `Array.prototype.map`: same length, element i is `f` of input element i. */
  function MapSeq<A, B>(f: A -> B, s: seq<A>): (r: seq<B>)
    ensures |r| == |s|
    ensures forall i :: 0 <= i < |s| ==> r[i] == f(s[i])
  {
    if |s| == 0 then [] else [f(s[0])] + MapSeq(f, s[1..])
  }

  /** `parseListenerData`: names copied, each flag normalised to its slot's truthiness. */
  function ParseListenerData(t: ListenerTuple): (r: ListenerMeta)
    ensures r.eventName == t.eventName && r.eventMethodName == t.eventMethodName
    ensures r.eventDisabled <==> Truthy(t.disabled)
    ensures r.eventPassive <==> Truthy(t.passive)
    ensures r.eventCapture <==> Truthy(t.capture)
  {
    ListenerMeta(t.eventName, t.eventMethodName, Truthy(t.disabled), Truthy(t.passive), Truthy(t.capture))
  }

  /** `parseEventData`: names copied, each flag normalised to its slot's truthiness. */
  function ParseEventData(t: EventTuple): (r: EventMeta)
    ensures r.eventName == t.eventName && r.eventMethodName == t.eventMethodName
    ensures r.eventBubbles <==> Truthy(t.bubbles)
    ensures r.eventCancelable <==> Truthy(t.cancelable)
    ensures r.eventComposed <==> Truthy(t.composed)
  {
    EventMeta(t.eventName, t.eventMethodName, Truthy(t.bubbles), Truthy(t.cancelable), Truthy(t.composed))
  }

  /** The attribute name of a member: lower-cased under the lower-case flag, dash-cased otherwise. */
  function AttribName(name: string, flag: Option<int>): (r: string)
    ensures NoUpper(r)
    ensures flag == Some(AttrLowerCase) ==> r == ToLowerCase(name)
    ensures flag != Some(AttrLowerCase) ==> r == ToDashCase(name)
  {
    if flag == Some(AttrLowerCase) then ToLowerCase(name) else ToDashCase(name)
  }

  /** The record one member tuple decodes to (the body of the loop in `parseMembersData`). */
  function DecodeMember(t: MemberTuple): (r: MemberMeta)
    ensures r.memberType == t.memberType && r.propType == t.propType && r.ctrlTag == t.ctrlTag
    ensures r.attribName.Some? && NoUpper(r.attribName.value)
    ensures r.attribName == Some(AttribName(t.name, t.attrNameFlag))
    ensures StripDashes(r.attribName.value) == StripDashes(ToLowerCase(t.name))
  {
    DashCaseOnlyInsertsDashes(t.name);
    MemberMeta(t.memberType, Some(AttribName(t.name, t.attrNameFlag)), t.propType, t.ctrlTag)
  }

  /** The member names a sequence of member tuples mentions. */
  function MemberNames(ts: seq<MemberTuple>): set<string>
  {
    set i | 0 <= i < |ts| :: ts[i].name
  }

  /** No tuple after position i names the same member as tuple i. */
  predicate IsLastWithName(ts: seq<MemberTuple>, i: int)
    requires 0 <= i < |ts|
  {
    forall j :: i < j < |ts| ==> ts[j].name != ts[i].name
  }

  lemma MemberNamesSnoc(ts: seq<MemberTuple>)
    requires |ts| > 0
    ensures MemberNames(ts) == MemberNames(ts[..|ts| - 1]) + {ts[|ts| - 1].name}
  {
    var n := |ts| - 1;
    forall k | k in MemberNames(ts) ensures k in MemberNames(ts[..n]) + {ts[n].name} {
      var i :| 0 <= i < |ts| && ts[i].name == k;
      if i < n { assert ts[..n][i] == ts[i]; }
    }
    forall k | k in MemberNames(ts[..n]) ensures k in MemberNames(ts) {
      var i :| 0 <= i < n && ts[..n][i].name == k;
      assert ts[i].name == k;
    }
  }

  lemma LastWithNameOfPrefix(ts: seq<MemberTuple>)
    requires |ts| > 0
    ensures forall i :: 0 <= i < |ts| - 1 && IsLastWithName(ts, i) ==> IsLastWithName(ts[..|ts| - 1], i)
  {
  }

  /**
   * The members map after writing the tuples in order into `m`:
   * keys not named keep their entry, and each named key holds the record
   * of the LAST tuple naming it (last write wins).
   */
  function MergeMembers(m: map<string, MemberMeta>, ts: seq<MemberTuple>): (r: map<string, MemberMeta>)
    ensures r.Keys == m.Keys + MemberNames(ts)
    ensures forall k :: k in m && k !in MemberNames(ts) ==> r[k] == m[k]
    ensures forall i :: 0 <= i < |ts| && IsLastWithName(ts, i) ==> r[ts[i].name] == DecodeMember(ts[i])
    decreases |ts|
  {
    if |ts| == 0 then m
    else
      var n := |ts| - 1;
      var prev := MergeMembers(m, ts[..n]);
      MemberNamesSnoc(ts);
      LastWithNameOfPrefix(ts);
      prev[ts[n].name := DecodeMember(ts[n])]
  }

  /** `parseMembersData`: a no-op when the member slot is absent. */
  function ParseMembersData(m: map<string, MemberMeta>, data: Option<seq<MemberTuple>>): (r: map<string, MemberMeta>)
    ensures data.None? ==> r == m
    ensures data.Some? ==> r == MergeMembers(m, data.value)
  {
    match data
    case None => m
    case Some(ts) => MergeMembers(m, ts)
  }

  /** `parseMembersData` as its `for` loop runs: it computes the same map as the fold. */
  method ParseMembersLoop(m: map<string, MemberMeta>, data: Option<seq<MemberTuple>>) returns (r: map<string, MemberMeta>)
    ensures r == ParseMembersData(m, data)
  {
    r := m;
    if data.Some? {
      var ts := data.value;
      var i := 0;
      while i < |ts|
        invariant 0 <= i <= |ts|
        invariant r == MergeMembers(m, ts[..i])
      {
        assert ts[..i + 1][..i] == ts[..i];
        r := r[ts[i].name := DecodeMember(ts[i])];
        i := i + 1;
      }
      assert ts[..|ts|] == ts;
    }
  }

  /** The implicit `mode` member: not observed as an attribute. */
  const ModeMember: MemberMeta := MemberMeta(None, None, None, Undefined)

  /** The implicit `color` member: observed as attribute `color`. */
  const ColorMember: MemberMeta := MemberMeta(None, Some("color"), None, Undefined)

  /** Every component starts with the `mode` and `color` members. */
  function DefaultMembers(): (r: map<string, MemberMeta>)
    ensures r.Keys == {"mode", "color"}
    ensures r["mode"].attribName.None? && r["color"].attribName == Some("color")
  {
    map["mode" := ModeMember, "color" := ColorMember]
  }

  /** The record a first-wave tuple decodes to, before it is stored. */
  function DecodeRegistryTuple(d: RegistryTuple): (c: ComponentMeta)
    ensures c.tagNameMeta == d.tagName && c.moduleId == d.moduleId
    ensures c.slotMeta == d.slotMeta && c.loadPriority == d.loadPriority
    ensures d.styleIds.Some? ==> c.styleIds == d.styleIds.value
    ensures d.styleIds.None? ==> c.styleIds == map[]
    ensures c.membersMeta == ParseMembersData(DefaultMembers(), d.members)
    ensures c.membersMeta.Keys == {"mode", "color"} + (if d.members.Some? then MemberNames(d.members.value) else {})
    ensures d.listeners.None? <==> c.listenersMeta.None?
    ensures d.listeners.Some? ==>
      |c.listenersMeta.value| == |d.listeners.value| &&
      forall i :: 0 <= i < |d.listeners.value| ==> c.listenersMeta.value[i] == ParseListenerData(d.listeners.value[i])
    ensures c.componentModule == Undefined && c.hostMeta == Undefined && c.eventsMeta.None?
    ensures c.propsWillChangeMeta == Undefined && c.propsDidChangeMeta == Undefined && c.isShadowMeta.None?
  {
    ComponentMeta(
      tagNameMeta := d.tagName,
      moduleId := d.moduleId,
      styleIds := match d.styleIds case Some(s) => s case None => map[],
      membersMeta := ParseMembersData(DefaultMembers(), d.members),
      listenersMeta := match d.listeners case Some(ls) => Some(MapSeq(ParseListenerData, ls)) case None => None,
      slotMeta := d.slotMeta,
      loadPriority := d.loadPriority,
      componentModule := Undefined,
      hostMeta := Undefined,
      eventsMeta := None,
      propsWillChangeMeta := Undefined,
      propsDidChangeMeta := Undefined,
      isShadowMeta := None)
  }

  /**
   * `parseComponentRegistry`: decodes the tuple, stores the record under its
   * tag (replacing any earlier record wholesale) and returns the record with
   * the updated registry. Every other tag keeps its record.
   */
  function ParseComponentRegistry(d: RegistryTuple, registry: Registry): (r: (ComponentMeta, Registry))
    ensures r.0 == DecodeRegistryTuple(d)
    ensures r.1.Keys == registry.Keys + {d.tagName}
    ensures r.1[d.tagName] == r.0
    ensures forall k :: k in registry && k != d.tagName ==> r.1[k] == registry[k]
  {
    var c := DecodeRegistryTuple(d);
    (c, registry[d.tagName := c])
  }

  /** The second-wave update of one existing record. */
  function BindComponent(c: ComponentMeta, moduleImports: ModuleImports, d: ComponentMetaTuple): (c': ComponentMeta)
    ensures c'.tagNameMeta == c.tagNameMeta && c'.moduleId == c.moduleId && c'.styleIds == c.styleIds
    ensures c'.listenersMeta == c.listenersMeta && c'.slotMeta == c.slotMeta && c'.loadPriority == c.loadPriority
    ensures d.tagName in moduleImports ==> c'.componentModule == moduleImports[d.tagName]
    ensures d.tagName !in moduleImports ==> c'.componentModule == Undefined
    ensures c'.membersMeta == ParseMembersData(c.membersMeta, d.members)
    ensures c'.hostMeta == d.hostMeta
    ensures d.events.None? ==> c'.eventsMeta == c.eventsMeta
    ensures d.events.Some? ==>
      c'.eventsMeta.Some? && |c'.eventsMeta.value| == |d.events.value| &&
      forall i :: 0 <= i < |d.events.value| ==> c'.eventsMeta.value[i] == ParseEventData(d.events.value[i])
    ensures c'.propsWillChangeMeta == d.propsWillChange && c'.propsDidChangeMeta == d.propsDidChange
    ensures c'.isShadowMeta == Some(Truthy(d.isShadow))
  {
    c.(
      componentModule := if d.tagName in moduleImports then moduleImports[d.tagName] else Undefined,
      membersMeta := ParseMembersData(c.membersMeta, d.members),
      hostMeta := d.hostMeta,
      eventsMeta := match d.events case Some(es) => Some(MapSeq(ParseEventData, es)) case None => c.eventsMeta,
      propsWillChangeMeta := d.propsWillChange,
      propsDidChangeMeta := d.propsDidChange,
      isShadowMeta := Some(Truthy(d.isShadow)))
  }

  /**
   * `parseComponentMeta`: updates the record of an already registered tag.
   * For a tag with no record the source dereferences `undefined` before
   * writing anything; that failure is `UnknownTag`, and nothing changes.
   */
  function ParseComponentMeta(registry: Registry, moduleImports: ModuleImports, d: ComponentMetaTuple): (r: Result<Registry, DecodeError>)
    ensures r.Failure? <==> d.tagName !in registry
    ensures r.Failure? ==> r.error == UnknownTag(d.tagName)
    ensures r.Success? ==> r.value.Keys == registry.Keys
    ensures r.Success? ==> forall k :: k in registry && k != d.tagName ==> r.value[k] == registry[k]
    ensures r.Success? ==> r.value[d.tagName] == BindComponent(registry[d.tagName], moduleImports, d)
  {
    if d.tagName !in registry then Failure(UnknownTag(d.tagName))
    else Success(registry[d.tagName := BindComponent(registry[d.tagName], moduleImports, d)])
  }
}
