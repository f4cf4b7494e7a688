/**
 * The positional tuples produced by the build step and the named metadata
 * records the decoders turn them into.
 *
 * Sparse tuple positions are `Option` where the decoder tests their
 * truthiness (arrays and maps: `None` stands for an absent slot or a falsy
 * placeholder) or compares them with a constant (the numeric type tags), and
 * `Value` where the decoder copies them verbatim (`Undefined` when absent).
 */
module Metadata {
  import opened Wrappers
  import opened JsValues

  /** Member flag: derive the attribute name by lower-casing the member name. */
  const AttrLowerCase: int := 2
  /** Property type tag: boolean. */
  const TypeBoolean: int := 1
  /** Property type tag: number. */
  const TypeNumber: int := 2

  /** (name, memberType, attrNameFlag, propType, ctrlTag) */
  datatype MemberTuple = MemberTuple(
    name: string,
    memberType: Option<int>,
    attrNameFlag: Option<int>,
    propType: Option<int>,
    ctrlTag: Value)

  /** Metadata of one property/attribute; `attribName == None` means "not observed". */
  datatype MemberMeta = MemberMeta(
    memberType: Option<int>,
    attribName: Option<string>,
    propType: Option<int>,
    ctrlTag: Value)

  /** (eventName, eventMethodName, disabled, passive, capture) */
  datatype ListenerTuple = ListenerTuple(
    eventName: string,
    eventMethodName: string,
    disabled: Value,
    passive: Value,
    capture: Value)

  datatype ListenerMeta = ListenerMeta(
    eventName: string,
    eventMethodName: string,
    eventDisabled: bool,
    eventPassive: bool,
    eventCapture: bool)

  /** (eventName, eventMethodName, bubbles, cancelable, composed) */
  datatype EventTuple = EventTuple(
    eventName: string,
    eventMethodName: string,
    bubbles: Value,
    cancelable: Value,
    composed: Value)

  datatype EventMeta = EventMeta(
    eventName: string,
    eventMethodName: string,
    eventBubbles: bool,
    eventCancelable: bool,
    eventComposed: bool)

  /** First-wave tuple: (tagName, moduleId, styleIds, members, listeners, slotMeta, loadPriority) */
  datatype RegistryTuple = RegistryTuple(
    tagName: string,
    moduleId: Value,
    styleIds: Option<map<string, Value>>,
    members: Option<seq<MemberTuple>>,
    listeners: Option<seq<ListenerTuple>>,
    slotMeta: Value,
    loadPriority: Value)

  /** Second-wave tuple: (tagName, members, hostMeta, events, propsWillChange, propsDidChange, isShadow) */
  datatype ComponentMetaTuple = ComponentMetaTuple(
    tagName: string,
    members: Option<seq<MemberTuple>>,
    hostMeta: Value,
    events: Option<seq<EventTuple>>,
    propsWillChange: Value,
    propsDidChange: Value,
    isShadow: Value)

  /**
   * Everything known about one custom element type. The fields from
   * `componentModule` on are set by the secondary decoder; before that they
   * are `Undefined`/`None`.
   */
  datatype ComponentMeta = ComponentMeta(
    tagNameMeta: string,
    moduleId: Value,
    styleIds: map<string, Value>,
    membersMeta: map<string, MemberMeta>,
    listenersMeta: Option<seq<ListenerMeta>>,
    slotMeta: Value,
    loadPriority: Value,
    componentModule: Value,
    hostMeta: Value,
    eventsMeta: Option<seq<EventMeta>>,
    propsWillChangeMeta: Value,
    propsDidChangeMeta: Value,
    isShadowMeta: Option<bool>)

  /** Component metadata keyed by (upper-case) tag name. */
  type Registry = map<string, ComponentMeta>

  /** The loader's export object: tag name to component class reference. */
  type ModuleImports = map<string, Value>

  /** Reading the component record of a tag that was never registered. */
  datatype DecodeError = UnknownTag(tag: string)
}
