/** `ErrorCode` and `WallpaperException`: the application's single exception type, carrying a
    code, a message and a mutable context dictionary. */
module Errors {

  /** The eleven error codes, in declaration order. */
  datatype ErrorCode =
    | InvalidImageId
    | NetworkError
    | ApiError
    | DownloadFailed
    | InvalidImage
    | CacheError
    | ConfigurationError
    | SystemApiError
    | FileTooLarge
    | Timeout
    | Unknown

  /** The boxed `object` values the code stores in a context dictionary: strings and integers. */
  datatype ContextValue = Text(s: string) | Number(n: int)

  /** A thrown `WallpaperException` as a value: what a catch block can observe. */
  datatype Fault = Fault(code: ErrorCode, message: string, context: map<string, ContextValue>) {
    /** `WithContext(key, value)`: sets one context entry and leaves everything else. */
    function WithContext(key: string, value: ContextValue): (f: Fault)
      ensures f.code == code && f.message == message
      ensures key in f.context && f.context[key] == value
      ensures forall k :: k in context && k != key ==> k in f.context && f.context[k] == context[k]
      ensures f.context.Keys == context.Keys + {key}
    {
      Fault(code, message, context[key := value])
    }
  }

  /** What the services' `catch` clauses tell apart. */
  datatype Exception =
    | HttpRequestException
      /** `byCaller`: the exception carries the caller's own cancellation token. */
    | TaskCanceledException(byCaller: bool)
    | JsonException
      /** A `WallpaperException`, seen through its value. */
    | Raised(fault: Fault)
      /** Any other exception (I/O, access denied, ...). */
    | OtherException

  /** The first constructor: a fresh exception with an empty context. */
  function NewFault(code: ErrorCode, message: string): (f: Fault)
    ensures f.code == code && f.message == message && f.context == map[]
  {
    Fault(code, message, map[])
  }

  /** Decimal rendering of an integer, as string interpolation prints an `int` or `long`. */
  function DecimalString(n: int): (s: string)
    ensures s != []
    ensures n >= 0 ==> forall i :: 0 <= i < |s| ==> '0' <= s[i] <= '9'
    decreases if n < 0 then 1 - n else n
  {
    if n < 0 then "-" + DecimalString(-n)
    else if n < 10 then [(48 + n) as char]
    else DecimalString(n / 10) + [(48 + n % 10) as char]
  }

  /** The C# dictionary object behind `WallpaperException.Context`; it is shared by reference. */
  class ContextMap {
    var entries: map<string, ContextValue>

    constructor()
      ensures entries == map[]
    {
      entries := map[];
    }
  }

  class WallpaperException {
    const code: ErrorCode
    const message: string
    const context: ContextMap

    /** `WallpaperException(code, message, inner)`: gets a new, empty context dictionary. */
    constructor(code: ErrorCode, message: string)
      ensures this.code == code && this.message == message
      ensures fresh(this.context) && this.context.entries == map[]
    {
      this.code := code;
      this.message := message;
      this.context := new ContextMap();
    }

    /** `WallpaperException(code, message, context, inner)`: keeps the caller's dictionary itself,
        not a copy, so later changes through either reference are seen by both. */
    constructor WithContextMap(code: ErrorCode, message: string, context: ContextMap)
      ensures this.code == code && this.message == message && this.context == context
    {
      this.code := code;
      this.message := message;
      this.context := context;
    }

    /** Sets `Context[key] = value` and returns this same exception for chaining. */
    method WithContext(key: string, value: ContextValue) returns (self: WallpaperException)
      modifies context
      ensures self == this
      ensures context.entries == old(context.entries)[key := value]
    {
      context.entries := context.entries[key := value];
      self := this;
    }

    /** The exception as a value, at the current state of its context dictionary. */
    function Snapshot(): (f: Fault)
      reads context
      ensures f.code == code && f.message == message && f.context == context.entries
    {
      Fault(code, message, context.entries)
    }
  }

  /** Two exceptions built over one dictionary: a context added through one of them is visible
      through the other, because the dictionary is not copied. */
  method SharedContext(shared: ContextMap, key: string, value: ContextValue)
    returns (a: WallpaperException, b: WallpaperException)
    modifies shared
    ensures a.context == shared && b.context == shared
    ensures key in b.context.entries && b.context.entries[key] == value
    ensures b.Snapshot().context == a.Snapshot().context
  {
    a := new WallpaperException.WithContextMap(ApiError, "first", shared);
    b := new WallpaperException.WithContextMap(NetworkError, "second", shared);
    var _ := a.WithContext(key, value);
  }

  /** Chaining through the class gives the same value as chaining on `Fault`. */
  method ChainedContexts(code: ErrorCode, message: string, k1: string, v1: ContextValue,
                         k2: string, v2: ContextValue)
    returns (e: WallpaperException)
    ensures fresh(e) && fresh(e.context)
    ensures e.Snapshot() == NewFault(code, message).WithContext(k1, v1).WithContext(k2, v2)
  {
    e := new WallpaperException(code, message);
    var e1 := e.WithContext(k1, v1);
    var e2 := e1.WithContext(k2, v2);
  }
}
