/** Properties relating several decoder calls. */
module DataParseLemmas {
  import opened Wrappers
  import opened JsValues
  import opened AttrNames
  import opened Metadata
  import opened DataParse

  /** Every member name the tuples mention has a last tuple naming it. */
  lemma {:induction false} LastIndexOf(ts: seq<MemberTuple>, k: string) returns (i: int)
    requires k in MemberNames(ts)
    ensures 0 <= i < |ts| && ts[i].name == k && IsLastWithName(ts, i)
    decreases |ts|
  {
    var n := |ts| - 1;
    if ts[n].name == k {
      i := n;
    } else {
      MemberNamesSnoc(ts);
      i := LastIndexOf(ts[..n], k);
      assert ts[..n][i] == ts[i];
      forall j | i < j < |ts| ensures ts[j].name != ts[i].name {
        if j < n { assert ts[..n][j] == ts[j]; }
      }
    }
  }

  /** Merging the same member tuples twice gives the map merging them once. */
  lemma {:induction false} MergeMembersIdempotent(m: map<string, MemberMeta>, ts: seq<MemberTuple>)
    ensures MergeMembers(MergeMembers(m, ts), ts) == MergeMembers(m, ts)
  {
    var a := MergeMembers(m, ts);
    var b := MergeMembers(a, ts);
    assert b.Keys == a.Keys;
    forall k | k in a ensures b[k] == a[k] {
      if k in MemberNames(ts) {
        var i := LastIndexOf(ts, k);
      }
    }
  }

  /** Of two member tuples naming the same member, only the second survives. */
  lemma RepeatedMemberLastWins(m: map<string, MemberMeta>, t1: MemberTuple, t2: MemberTuple)
    requires t1.name == t2.name
    ensures MergeMembers(m, [t1, t2]) == m[t2.name := DecodeMember(t2)]
  {
  }

  /** Without member tuples a component holds exactly the implicit `mode` and `color` members. */
  lemma RegistryWithoutMembersHasOnlyDefaults(d: RegistryTuple, registry: Registry)
    requires d.members.None? || d.members == Some([])
    ensures ParseComponentRegistry(d, registry).1[d.tagName].membersMeta == map["mode" := ModeMember, "color" := ColorMember]
  {
  }

  /** Registering a tag twice keeps only the second record: the first is discarded. */
  lemma RegistryOverwrite(d1: RegistryTuple, d2: RegistryTuple, registry: Registry)
    requires d1.tagName == d2.tagName
    ensures ParseComponentRegistry(d2, ParseComponentRegistry(d1, registry).1).1 == ParseComponentRegistry(d2, registry).1
  {
  }

  /** Decoding tuples of different tags never reads the other's entry, so the order does not matter. */
  lemma RegistryDecodesCommute(d1: RegistryTuple, d2: RegistryTuple, registry: Registry)
    requires d1.tagName != d2.tagName
    ensures ParseComponentRegistry(d2, ParseComponentRegistry(d1, registry).1).1
         == ParseComponentRegistry(d1, ParseComponentRegistry(d2, registry).1).1
  {
  }

  /** The secondary decoder keeps every existing member its tuple does not name. */
  lemma BindKeepsUnnamedMember(c: ComponentMeta, moduleImports: ModuleImports, d: ComponentMetaTuple, k: string)
    requires k in c.membersMeta
    requires d.members.None? || k !in MemberNames(d.members.value)
    ensures k in BindComponent(c, moduleImports, d).membersMeta
    ensures BindComponent(c, moduleImports, d).membersMeta[k] == c.membersMeta[k]
  {
  }

  /** A freshly registered record holds the implicit `color` member unless a tuple redefines it. */
  lemma RegisteredColorIsDefault(d: RegistryTuple)
    requires d.members.None? || "color" !in MemberNames(d.members.value)
    ensures DecodeRegistryTuple(d).membersMeta["color"] == ColorMember
  {
  }

  /**
   * Once a tag is registered the secondary decoder succeeds for it, binds the
   * module export and keeps the implicit members, and keeps the default
   * `color` member unless one of the two waves redefines it.
   */
  lemma SecondaryAfterRegistry(d1: RegistryTuple, registry: Registry, moduleImports: ModuleImports, d2: ComponentMetaTuple)
    requires d1.tagName == d2.tagName
    ensures ParseComponentMeta(ParseComponentRegistry(d1, registry).1, moduleImports, d2).Success?
    ensures var c := ParseComponentMeta(ParseComponentRegistry(d1, registry).1, moduleImports, d2).value[d2.tagName];
      && (d2.tagName in moduleImports ==> c.componentModule == moduleImports[d2.tagName])
      && "mode" in c.membersMeta && "color" in c.membersMeta
      && (var unnamed1 := d1.members.None? || "color" !in MemberNames(d1.members.value);
          var unnamed2 := d2.members.None? || "color" !in MemberNames(d2.members.value);
          unnamed1 && unnamed2 ==> c.membersMeta["color"] == ColorMember)
  {
  }

  /** Applying the same second-wave tuple twice has the effect of applying it once. */
  lemma SecondaryDecoderIdempotent(registry: Registry, moduleImports: ModuleImports, d: ComponentMetaTuple)
    requires d.tagName in registry
    ensures ParseComponentMeta(ParseComponentMeta(registry, moduleImports, d).value, moduleImports, d)
         == ParseComponentMeta(registry, moduleImports, d)
  {
    var c := registry[d.tagName];
    var c1 := BindComponent(c, moduleImports, d);
    var c2 := BindComponent(c1, moduleImports, d);
    if d.members.Some? {
      MergeMembersIdempotent(c.membersMeta, d.members.value);
    }
    assert c2 == c1;
    var reg1 := registry[d.tagName := c1];
    assert ParseComponentMeta(registry, moduleImports, d) == Success(reg1);
    assert reg1[d.tagName] == c1;
    assert reg1[d.tagName := c2] == reg1;
  }

  /**
   * Worked example: `MY-BUTTON` registered with member `pressed` under the
   * lower-case flag, then bound to its module export.
   */
  lemma EndToEndExample(d1: RegistryTuple, moduleImports: ModuleImports, d2: ComponentMetaTuple)
    requires d1 == RegistryTuple("MY-BUTTON", Obj(1), None,
      Some([MemberTuple("pressed", Some(TypeBoolean), Some(AttrLowerCase), None, Undefined)]),
      None, Undefined, Undefined)
    requires moduleImports == map["MY-BUTTON" := Obj(2)]
    requires d2 == ComponentMetaTuple("MY-BUTTON", None, Undefined, None, Undefined, Undefined, Undefined)
    ensures var r := ParseComponentMeta(ParseComponentRegistry(d1, map[]).1, moduleImports, d2);
      && r.Success?
      && r.value["MY-BUTTON"].componentModule == Obj(2)
      && r.value["MY-BUTTON"].membersMeta["pressed"].attribName == Some("pressed")
      && r.value["MY-BUTTON"].membersMeta["mode"] == ModeMember
      && r.value["MY-BUTTON"].membersMeta["color"] == ColorMember
      && r.value["MY-BUTTON"].isShadowMeta == Some(false)
  {
    var t := d1.members.value[0];
    assert d1.members.value == [t];
    assert [t][0] == t;
    assert MemberNames([t]) == {"pressed"};
    assert IsLastWithName([t], 0);
    DerivationsAgreeOnLowerNames("pressed");
    var c0 := DecodeRegistryTuple(d1);
    assert c0.membersMeta["pressed"] == DecodeMember(t);
    assert c0.membersMeta["pressed"].attribName == Some("pressed");
    assert c0.membersMeta["mode"] == ModeMember;
    assert c0.membersMeta["color"] == ColorMember;
    var reg1 := ParseComponentRegistry(d1, map[]).1;
    assert reg1["MY-BUTTON"] == c0;
    var c := BindComponent(c0, moduleImports, d2);
    assert c.membersMeta == c0.membersMeta;
    assert ParseComponentMeta(reg1, moduleImports, d2).value["MY-BUTTON"] == c;
  }

  /** A listener tuple holding only its two names decodes with every flag false. */
  lemma ShortListenerTupleHasNoFlags(eventName: string, methodName: string)
    ensures ParseListenerData(ListenerTuple(eventName, methodName, Undefined, Undefined, Undefined))
         == ListenerMeta(eventName, methodName, false, false, false)
  {
  }

  /** An event tuple holding only its two names decodes with every flag false. */
  lemma ShortEventTupleHasNoFlags(eventName: string, methodName: string)
    ensures ParseEventData(EventTuple(eventName, methodName, Undefined, Undefined, Undefined))
         == EventMeta(eventName, methodName, false, false, false)
  {
  }

  /** Decoding a listener tuple whose flags are real booleans loses nothing. */
  lemma ListenerRoundTrip(l: ListenerMeta)
    ensures ParseListenerData(ListenerTuple(l.eventName, l.eventMethodName,
      Bool(l.eventDisabled), Bool(l.eventPassive), Bool(l.eventCapture))) == l
  {
  }

  /** Decoding an event tuple whose flags are real booleans loses nothing. */
  lemma EventRoundTrip(e: EventMeta)
    ensures ParseEventData(EventTuple(e.eventName, e.eventMethodName,
      Bool(e.eventBubbles), Bool(e.eventCancelable), Bool(e.eventComposed))) == e
  {
  }
}
