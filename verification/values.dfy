/** Small wrappers shared by every module of the model. */
module Common {

  /** An optional value: the `Option` of the editor's store and `undefined` in handlers. */
  datatype Option<+T> = None | Some(value: T) {
    function GetOr(default: T): T {
      match this
      case Some(v) => v
      case None => default
    }
  }

  /** The outcome of an operation that the source lets throw. */
  datatype Result<+T, +E> = Ok(value: T) | Err(error: E)

  /**
   * A scene node (a Roblox `Instance`).  The host compares instances by
   * reference; the model identifies them by an opaque number.
   */
  type InstanceId = nat

  /**
   * Concatenation is associative.  Stated apart so that proofs about
   * recursively defined sequences can regroup without unfolding them.
   */
  lemma AppendAssociates<T>(a: seq<T>, b: seq<T>, c: seq<T>)
    ensures a + (b + c) == a + b + c
  {
  }
}

/** The values a keyframe can hold and the enumerations a keyframe carries. */
module Values {
  import opened Common

  /** A Roblox `UDim`: a scale and a pixel offset. */
  datatype UDim = UDim(scale: real, offset: real)

  /** The union `number | boolean | string | UDim2 | UDim | Vector2 | Color3`. */
  datatype KeyframeValue =
    | Number(n: real)
    | Boolean(b: bool)
    | Str(s: string)
    | UDim2Value(x: UDim, y: UDim)
    | UDimValue(u: UDim)
    | Vector2Value(vx: real, vy: real)
    | Color3Value(r: real, g: real, bl: real)

  /** How a keyframe is meant to be interpolated. */
  datatype KeyframeKind = Tween | Spring

  /** The members of the host's `Enum.EasingStyle`. */
  datatype EasingStyle =
    | Linear | Sine | Back | Quad | Quart | Quint | Bounce | Elastic | Exponential | Circular | Cubic

  /** The members of the host's `Enum.EasingDirection`. */
  datatype EasingDirection = In | Out | InOut

  /** The `.Name` of an easing style, as the exporter writes it. */
  function StyleName(e: EasingStyle): string {
    match e
    case Linear => "Linear"
    case Sine => "Sine"
    case Back => "Back"
    case Quad => "Quad"
    case Quart => "Quart"
    case Quint => "Quint"
    case Bounce => "Bounce"
    case Elastic => "Elastic"
    case Exponential => "Exponential"
    case Circular => "Circular"
    case Cubic => "Cubic"
  }

  /** The `.Name` of an easing direction, as the exporter writes it. */
  function DirectionName(d: EasingDirection): string {
    match d
    case In => "In"
    case Out => "Out"
    case InOut => "InOut"
  }

  /** Reading an exported style name back; partner of StyleName. */
  function StyleFromName(name: string): (r: Option<EasingStyle>)
    ensures r.Some? ==> StyleName(r.value) == name
  {
    if name == "Linear" then Some(Linear)
    else if name == "Sine" then Some(Sine)
    else if name == "Back" then Some(Back)
    else if name == "Quad" then Some(Quad)
    else if name == "Quart" then Some(Quart)
    else if name == "Quint" then Some(Quint)
    else if name == "Bounce" then Some(Bounce)
    else if name == "Elastic" then Some(Elastic)
    else if name == "Exponential" then Some(Exponential)
    else if name == "Circular" then Some(Circular)
    else if name == "Cubic" then Some(Cubic)
    else None
  }

  /** Reading an exported direction name back; partner of DirectionName. */
  function DirectionFromName(name: string): (r: Option<EasingDirection>)
    ensures r.Some? ==> DirectionName(r.value) == name
  {
    if name == "In" then Some(In)
    else if name == "Out" then Some(Out)
    else if name == "InOut" then Some(InOut)
    else None
  }

  /** The exported style name identifies the style: no information is lost. */
  lemma StyleNameRoundTrip(e: EasingStyle)
    ensures StyleFromName(StyleName(e)) == Some(e)
  {
    match e
    case Linear =>
    case Sine =>
    case Back =>
    case Quad =>
    case Quart =>
    case Quint =>
    case Bounce =>
    case Elastic =>
    case Exponential =>
    case Circular =>
    case Cubic =>
  }

  /** The exported direction name identifies the direction. */
  lemma DirectionNameRoundTrip(d: EasingDirection)
    ensures DirectionFromName(DirectionName(d)) == Some(d)
  {
  }
}
