/** What a syntax tree does to the document: values are built into an array or a table, one after the other. */
module Eval {
  import opened Bytes
  import opened Store
  import opened Keys
  import opened Grammar

  /** The number and date conversions `valtype` tries; their inner workings are C library calls. */
  datatype Foreign = Foreign(isInteger: Str -> bool, isDouble: Str -> bool, stamp: Str -> Stamp)

  /** What `toml_rtots` makes of a raw value. */
  datatype Stamp = NoStamp | DateAndTime | DateOnly | TimeOnly

  const TRUE: Str := [116, 114, 117, 101]
  const FALSE: Str := [102, 97, 108, 115, 101]

  function TypeOf(f: Foreign, val: Str): ValType {
    if At(val, 0) == SQUOTE || At(val, 0) == DQUOTE then Textual
    else if val == TRUE || val == FALSE then Boolean
    else if f.isInteger(val) then Integer
    else if f.isDouble(val) then Double
    else match f.stamp(val)
      case DateAndTime => Timestamp
      case DateOnly => Date
      case TimeOnly => Time
      case NoStamp => Unknown
  }

  /** The result of a builder step that may be refused; `heap` is the document either way. */
  datatype Built = Done(heap: Heap, id: nat) | Refused(heap: Heap, why: Reason)

  datatype Reason = WrongKind | WrongType | KeyTaken | UnusableKey(read: KeyRead)

  /** Room for an element of this kind. */
  predicate Takes(arr: Node, kind: ElemKind) { arr.Arr? && (arr.kind == NoKind || arr.kind == kind) }

  /** A scalar is appended first and its type compared afterwards. */
  function AppendScalar(f: Foreign, s: Heap, a: nat, text: Str): (b: Built)
    requires a < |s| && s[a].Arr?
    ensures Grows(s, b.heap)
  {
    if !Takes(s[a], Values) then Refused(s, WrongKind)
    else
      var s' := PushVal(s, a, text, TypeOf(f, text));
      if s'[a].typ == TypeOf(f, text) then Done(s', a) else Refused(s', WrongType)
  }

  function AppendArray(s: Heap, a: nat): (b: Built)
    requires a < |s| && s[a].Arr?
    ensures Grows(s, b.heap) && (b.Done? ==> b.id == |s| < |b.heap| && b.heap[b.id] == NewArr(None))
  {
    if Takes(s[a], Arrays) then Done(PushArr(s, a), |s|) else Refused(s, WrongKind)
  }

  function AppendTable(s: Heap, a: nat): (b: Built)
    requires a < |s| && s[a].Arr?
    ensures Grows(s, b.heap) && (b.Done? ==> b.id == |s| < |b.heap| && b.heap[b.id] == NewTab(None, false))
  {
    if Takes(s[a], Tables) then Done(PushTab(s, a, None), |s|) else Refused(s, WrongKind)
  }

  /** `create_keyval_in_table`, with the value its caller stores. */
  function CreateVal(s: Heap, i: nat, keytext: Str, val: Str): (b: Built)
    requires i < |s| && s[i].Tab?
    ensures Grows(s, b.heap)
  {
    match KeyOf(keytext)
    case Key(k) => if CheckKey(s, s[i], k).Absent? then Done(AddVal(s, i, k, val), i) else Refused(s, KeyTaken)
    case bad => Refused(s, UnusableKey(bad))
  }

  /** `create_keyarray_in_table` without `skip_if_exist`. */
  function CreateArray(s: Heap, i: nat, keytext: Str): (b: Built)
    requires i < |s| && s[i].Tab?
    ensures Grows(s, b.heap)
    ensures b.Done? ==> b.id == |s| < |b.heap| && b.heap[b.id].Arr? && b.heap[b.id] == NewArr(b.heap[b.id].key)
  {
    match KeyOf(keytext)
    case Key(k) => if CheckKey(s, s[i], k).Absent? then Done(AddArr(s, i, k), |s|) else Refused(s, KeyTaken)
    case bad => Refused(s, UnusableKey(bad))
  }

  /** A table found under the key is handed out if it was implicit, and is explicit from then on. */
  function ClaimTable(s: Heap, i: nat, k: Str): (b: Built)
    requires i < |s| && s[i].Tab?
    ensures Grows(s, b.heap) && (b.Done? ==> b.id < |b.heap| && b.heap[b.id].Tab?)
  {
    match CheckKey(s, s[i], k)
    case Absent => Done(AddTab(s, i, k, false), |s|)
    case FoundTab(id) =>
      if id < |s| && s[id].Tab? && s[id].implicit then Done(Promote(s, id), id) else Refused(s, KeyTaken)
    case _ => Refused(s, KeyTaken)
  }

  /** `create_keytable_in_table`. */
  function CreateTable(s: Heap, i: nat, keytext: Str): (b: Built)
    requires i < |s| && s[i].Tab?
    ensures Grows(s, b.heap) && (b.Done? ==> b.id < |b.heap| && b.heap[b.id].Tab?)
  {
    match KeyOf(keytext)
    case Key(k) => ClaimTable(s, i, k)
    case bad => Refused(s, UnusableKey(bad))
  }

  // ---- The meaning of a syntax tree ----

  /** The document after the elements are appended to array `a`; None when one is refused. */
  function EvalElems(f: Foreign, s: Heap, a: nat, e: Elems): Option<Heap>
    requires a < |s| && s[a].Arr?
    ensures EvalElems(f, s, a, e).Some? ==> Grows(s, EvalElems(f, s, a, e).value)
    decreases e
  {
    match e
    case NoElem(_) => Some(s)
    case LastElem(_, v, _) => EvalElem(f, s, a, v)
    case MoreElems(_, v, _, rest) =>
      match EvalElem(f, s, a, v)
      case None => None
      case Some(s') =>
        assert NodeGrows(s[a], s'[a]);
        match EvalElems(f, s', a, rest)
        case None => None
        case Some(s'') => GrowsTrans(s, s', s''); Some(s'')
  }

  function EvalElem(f: Foreign, s: Heap, a: nat, v: Value): Option<Heap>
    requires a < |s| && s[a].Arr?
    ensures EvalElem(f, s, a, v).Some? ==> Grows(s, EvalElem(f, s, a, v).value)
    decreases v
  {
    match v
    case Scalar(text) =>
      var b := AppendScalar(f, s, a, text);
      if b.Done? then Some(b.heap) else None
    case Array(elems) =>
      var b := AppendArray(s, a);
      if b.Refused? then None
      else (match EvalElems(f, b.heap, b.id, elems)
            case None => None
            case Some(s') => GrowsTrans(s, b.heap, s'); Some(s'))
    case Inline(fields) =>
      var b := AppendTable(s, a);
      if b.Refused? then None
      else (match EvalFields(f, b.heap, b.id, fields)
            case None => None
            case Some(s') => GrowsTrans(s, b.heap, s'); Some(s'))
  }

  /** The document after the key-values are entered in table `i`; None when one is refused. */
  function EvalFields(f: Foreign, s: Heap, i: nat, fs: Fields): Option<Heap>
    requires i < |s| && s[i].Tab?
    ensures EvalFields(f, s, i, fs).Some? ==> Grows(s, EvalFields(f, s, i, fs).value)
    decreases fs
  {
    match fs
    case NoField(_) => Some(s)
    case LastField(_, k, v, _) => EvalField(f, s, i, k, v)
    case MoreFields(_, k, v, _, rest) =>
      match EvalField(f, s, i, k, v)
      case None => None
      case Some(s') =>
        assert NodeGrows(s[i], s'[i]);
        match EvalFields(f, s', i, rest)
        case None => None
        case Some(s'') => GrowsTrans(s, s', s''); Some(s'')
  }

  function EvalField(f: Foreign, s: Heap, i: nat, key: Str, v: Value): Option<Heap>
    requires i < |s| && s[i].Tab?
    ensures EvalField(f, s, i, key, v).Some? ==> Grows(s, EvalField(f, s, i, key, v).value)
    decreases v
  {
    match v
    case Scalar(text) =>
      var b := CreateVal(s, i, key, text);
      if b.Done? then Some(b.heap) else None
    case Array(elems) =>
      var b := CreateArray(s, i, key);
      if b.Refused? then None
      else (match EvalElems(f, b.heap, b.id, elems)
            case None => None
            case Some(s') => GrowsTrans(s, b.heap, s'); Some(s'))
    case Inline(fields) =>
      var b := CreateTable(s, i, key);
      if b.Refused? then None
      else (match EvalFields(f, b.heap, b.id, fields)
            case None => None
            case Some(s') => GrowsTrans(s, b.heap, s'); Some(s'))
  }
}
