/**
  The job server's configuration: decoded JSON values, the per-request merge of
  front-end overrides into the server's settings (`process_video_async` and
  `process_batch_convert_async`), and the gate of `send_email_notification`.
 */
module Config {
  import opened Text

  /** A decoded JSON value. Numbers are integers only. */
  datatype Value =
    | Null
    | Bool(b: bool)
    | Int(i: int)
    | Str(s: string)
    | List(items: seq<Value>)
    | Dict(entries: map<string, Value>)

  type Settings = map<string, Value>

  const SmtpKey := "smtp_settings"
  const EnableKey := "enable_email_notification"

  /** The message of a completed job; the only one the e-mail gate lets through. */
  const DoneMessage := "\U{89C6}\U{9891}\U{5904}\U{7406}\U{5B8C}\U{6210}"
  const CompletedStatus := "completed"

  /** Python truthiness. */
  predicate Truthy(v: Value) {
    match v
    case Null => false
    case Bool(b) => b
    case Int(i) => i != 0
    case Str(s) => s != []
    case List(xs) => xs != []
    case Dict(m) => m != map[]
  }

  /** `d.get(key, default)` */
  function Get(m: Settings, key: string, default: Value): Value {
    if key in m then m[key] else default
  }

  /** The integer a value compares as: integers, and booleans as 0 and 1; other
      values make a comparison with an integer raise. */
  function AsNumber(v: Value): (r: Option<int>)
    ensures r.Some? <==> v.Int? || v.Bool?
    ensures v.Int? ==> r == Some(v.i)
    ensures v == Bool(true) ==> r == Some(1)
    ensures v == Bool(false) ==> r == Some(0)
  {
    match v
    case Int(i) => Some(i)
    case Bool(b) => Some(if b then 1 else 0)
    case _ => None
  }

  // ---------------------------------------------------------------------------
  // dict.update

  /** One item of a sequence given to `dict.update`: a two-character string or a
      two-element list with a string first. */
  function PairOf(item: Value): Option<(string, Value)> {
    match item
    case Str(s) => if |s| == 2 then Some(([s[0]], Str([s[1]]))) else None
    case List(xs) => if |xs| == 2 && xs[0].Str? then Some((xs[0].s, xs[1])) else None
    case _ => None
  }

  function UpdatePairs(base: Settings, items: seq<Value>): (r: Option<Settings>)
    decreases |items|
    ensures r.Some? <==> forall k | 0 <= k < |items| :: PairOf(items[k]).Some?
    ensures r.Some? ==> base.Keys <= r.value.Keys
  {
    if items == [] then Some(base)
    else match PairOf(items[0])
      case None => None
      case Some(kv) =>
        var rest := UpdatePairs(base[kv.0 := kv.1], items[1..]);
        assert forall k | 1 <= k < |items| :: items[k] == items[1..][k - 1];
        rest
  }

  /** `base.update(arg)`: a dict merges over `base`, a sequence of pairs is applied in
      order, an empty string changes nothing; anything else raises (`None`). */
  function UpdateWith(base: Settings, arg: Value): (r: Option<Settings>)
    ensures arg.Dict? ==>
      && r.Some?
      && r.value.Keys == base.Keys + arg.entries.Keys
      && (forall k | k in arg.entries :: r.value[k] == arg.entries[k])
      && (forall k | k in base && k !in arg.entries :: r.value[k] == base[k])
    ensures arg.List? ==> (r.Some? <==> forall k | 0 <= k < |arg.items| :: PairOf(arg.items[k]).Some?)
    ensures arg == Str([]) ==> r == Some(base)
    ensures arg.Null? || arg.Int? || arg.Bool? ==> r == None
    ensures r.Some? ==> base.Keys <= r.value.Keys
  {
    match arg
    case Dict(m) => Some(base + m)
    case List(items) => UpdatePairs(base, items)
    case Str(s) => if s == [] then Some(base) else UpdatePairs(base, seq(|s|, i requires 0 <= i < |s| => Str([s[i]])))
    case _ => None
  }

  /** A non-empty string never updates a dict: each of its characters is an item of
      length one. */
  lemma StringUpdateRaises(base: Settings, s: string)
    requires s != []
    ensures UpdateWith(base, Str(s)) == None
  {
    var items := seq(|s|, i requires 0 <= i < |s| => Str([s[i]]));
    assert PairOf(items[0]).None?;
  }

  // ---------------------------------------------------------------------------
  // The per-request merge

  /** The settings a job runs with: a copy of the server's settings in which the
      SMTP block is updated key by key from the override's SMTP block, and every other
      key of the override replaces the server's value outright. A missing override
      changes nothing; an override that is not a dict, a server SMTP block that is
      not a dict, or an SMTP override `dict.update` rejects, raises. */
  function MergeOverrides(base: Settings, front: Value): (r: Option<Settings>)
    ensures front.Null? ==> r == Some(base)
    ensures !front.Null? && !front.Dict? ==> r == None
    ensures front.Dict? && SmtpKey !in front.entries ==> r == Some(base + front.entries)
    ensures r.Some? && front.Dict? ==>
      && r.value.Keys == base.Keys + front.entries.Keys
      && forall k | k in r.value && k != SmtpKey ::
           r.value[k] == if k in front.entries then front.entries[k] else base[k]
    ensures front.Dict? && SmtpKey in front.entries ==>
      (r.Some? <==> Get(base, SmtpKey, Dict(map[])).Dict?
                    && UpdateWith(Get(base, SmtpKey, Dict(map[])).entries, front.entries[SmtpKey]).Some?)
    ensures r.Some? && front.Dict? && SmtpKey in front.entries ==>
      r.value[SmtpKey] == Dict(UpdateWith(Get(base, SmtpKey, Dict(map[])).entries, front.entries[SmtpKey]).value)
  {
    match front
    case Null => Some(base)
    case Dict(over) =>
      if SmtpKey in over then
        var current := Get(base, SmtpKey, Dict(map[]));
        if !current.Dict? then None
        else match UpdateWith(current.entries, over[SmtpKey])
          case None => None
          case Some(smtp) => Some(base[SmtpKey := Dict(smtp)] + (over - {SmtpKey}))
      else Some(base + over)
    case _ => None
  }

  /** Overriding one SMTP key keeps every other key of the server's SMTP block. */
  lemma SmtpMergeKeepsOtherKeys(base: Settings, smtp: map<string, Value>, over: Settings, key: string)
    requires SmtpKey in base && base[SmtpKey] == Dict(smtp)
    requires SmtpKey in over && over[SmtpKey].Dict?
    requires key in smtp && key !in over[SmtpKey].entries
    ensures MergeOverrides(base, Dict(over)).Some?
    ensures MergeOverrides(base, Dict(over)).value[SmtpKey].entries[key] == smtp[key]
  {
  }

  /** An override key other than the SMTP block lands in the merged settings as is,
      on top of what the other keys give. */
  lemma MergeExtraKey(base: Settings, over: Settings, key: string, v: Value)
    requires key != SmtpKey && key !in over
    ensures MergeOverrides(base, Dict(over[key := v])).Some? <==> MergeOverrides(base, Dict(over)).Some?
    ensures MergeOverrides(base, Dict(over)).Some? ==>
      MergeOverrides(base, Dict(over[key := v])).value == MergeOverrides(base, Dict(over)).value[key := v]
  {
    if SmtpKey in over {
      var current := Get(base, SmtpKey, Dict(map[]));
      if current.Dict? && UpdateWith(current.entries, over[SmtpKey]).Some? {
        var smtp := UpdateWith(current.entries, over[SmtpKey]).value;
        ReplaceCommutes(base[SmtpKey := Dict(smtp)], over - {SmtpKey}, key, v);
        RemoveCommutes(over, key, v, SmtpKey);
      }
    } else {
      ReplaceCommutes(base, over, key, v);
    }
  }

  lemma RemoveCommutes(over: Settings, key: string, v: Value, gone: string)
    requires key != gone
    ensures over[key := v] - {gone} == (over - {gone})[key := v]
  {
  }

  lemma ReplaceCommutes(base: Settings, over: Settings, key: string, v: Value)
    ensures base + over[key := v] == (base + over)[key := v]
  {
  }

  // ---------------------------------------------------------------------------
  // The e-mail gate

  /** `send_email_notification` decides to send: the settings hold a non-empty SMTP
      dict whose enable flag is truthy, and the call is for a completed job with the
      completion message. A missing, empty or non-dict SMTP block closes the gate
      (the last by an exception the function catches itself). */
  predicate ShouldSendEmail(config: Settings, status: string, message: string) {
    var smtp := Get(config, SmtpKey, Dict(map[]));
    if !Truthy(smtp) then false
    else if !smtp.Dict? then false
    else if !Truthy(Get(smtp.entries, EnableKey, Bool(false))) then false
    else status == CompletedStatus && message == DoneMessage
  }

  /** Whether a notification goes out: the gate, then building and delivering the
      message, whose outcome (`delivered`, covering missing addresses and every SMTP
      failure) is not modelled. The function never raises. */
  function EmailSent(config: Settings, status: string, message: string, delivered: bool): (r: bool)
    ensures r ==> status == CompletedStatus && message == DoneMessage
    ensures r ==> SmtpKey in config && config[SmtpKey].Dict?
    ensures r ==> Truthy(Get(config[SmtpKey].entries, EnableKey, Bool(false)))
    ensures !delivered ==> !r
  {
    ShouldSendEmail(config, status, message) && delivered
  }

  /** The batch loop's own pre-check (a truthy enable flag in an SMTP dict) agrees with
      the gate for a completed file: the flag can only be truthy in a non-empty dict. */
  lemma BatchPrecheckAgrees(config: Settings, smtp: map<string, Value>)
    requires Get(config, SmtpKey, Dict(map[])) == Dict(smtp)
    ensures ShouldSendEmail(config, CompletedStatus, DoneMessage) <==> Truthy(Get(smtp, EnableKey, Bool(false)))
  {
    if Truthy(Get(smtp, EnableKey, Bool(false))) {
      assert EnableKey in smtp;
    }
  }
}
