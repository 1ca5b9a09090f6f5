/**
 * The preload bridge between the page and the main process: the guards on
 * the values the page may send (`findText`, `saveSettings`, `openFile`) and
 * the `on*` subscriptions, each of which adds one handler to a channel and
 * hands back a function that removes it again.
 */
module Preload {
  import opened Wrappers
  import opened Text
  import opened Js

  // ---------------------------------------------------------------------------
  // Guards
  // ---------------------------------------------------------------------------

  const MaxQueryLength := 1000

  /** `findText`: the query sent on `find-text`, or `None` when nothing is sent. Lengths are
      counted in UTF-16 code units, as JavaScript counts them. */
  function FindText(query: Json): (sent: Option<string>)
    ensures sent.Some? <==> query.Str? && Utf16Length(query.s) <= MaxQueryLength
    ensures sent.Some? ==> sent.value == query.s
  {
    if !query.Str? || Utf16Length(query.s) > MaxQueryLength then None else Some(query.s)
  }

  /** Any string of at most 500 characters is sent; none of more than 1000 characters is. */
  lemma FindTextBounds(q: string)
    ensures |q| <= MaxQueryLength / 2 ==> FindText(Str(q)) == Some(q)
    ensures |q| > MaxQueryLength ==> FindText(Str(q)).None?
  {
    var n := Utf16Length(q);
    assert |q| <= n <= 2 * |q|;
  }

  /** `openFile`: only a string path is sent on `open-file`. */
  function OpenFile(path: Json): (sent: Option<string>)
    ensures sent.Some? <==> path.Str?
    ensures sent.Some? ==> sent.value == path.s
  {
    if path.Str? then Some(path.s) else None
  }

  const AllowedSettingKeys: set<string> := {"theme", "bodyFont", "bodyFontSize", "codeFont", "codeFontSize", "font"}

  const MaxSettingsJsonLength := 65536

  /** The settings object restricted to the keys the main process accepts. */
  function Allowlisted(fields: map<string, Json>): map<string, Json> {
    map k | k in fields && k in AllowedSettingKeys :: fields[k]
  }

  /** What `saveSettings` sends: nothing for a non-object, `null` or an array, the allowlisted
      object otherwise, unless its serialisation is longer than 64 KiB. */
  function SettingsToSend(settings: Json, stringify: Json -> string): Option<map<string, Json>> {
    if !settings.Obj? then None
    else
      var v := Allowlisted(settings.fields);
      if Utf16Length(stringify(Obj(v))) > MaxSettingsJsonLength then None else Some(v)
  }

  /** `saveSettings`, with `JSON.stringify` as `stringify`: copies the allowed keys one at a time
      and sends the copy when it is small enough. */
  method SaveSettings(settings: Json, stringify: Json -> string) returns (sent: Option<map<string, Json>>)
    ensures sent == SettingsToSend(settings, stringify)
  {
    if !settings.Obj? {
      return None;
    }
    var fields := settings.fields;
    var validated: map<string, Json> := map[];
    var remaining := fields.Keys;
    while remaining != {}
      invariant remaining <= fields.Keys
      invariant validated == map k | k in fields && k !in remaining && k in AllowedSettingKeys :: fields[k]
      decreases remaining
    {
      var key :| key in remaining;
      if key in AllowedSettingKeys {
        validated := validated[key := fields[key]];
      }
      remaining := remaining - {key};
    }
    assert validated == Allowlisted(fields);
    var json := stringify(Obj(validated));
    if Utf16Length(json) > MaxSettingsJsonLength {
      return None;
    }
    sent := Some(validated);
  }

  /** The sent settings hold exactly the allowed keys of the input, each with its input value;
      nothing is sent for anything but an object, and an object whose allowed settings serialise
      within the bound is sent. */
  lemma SaveSettingsSpec(settings: Json, stringify: Json -> string)
    ensures !settings.Obj? ==> SettingsToSend(settings, stringify).None?
    ensures SettingsToSend(settings, stringify).Some? ==>
      var v := SettingsToSend(settings, stringify).value;
      (forall k :: k in v <==> k in settings.fields && k in AllowedSettingKeys)
      && (forall k :: k in v ==> v[k] == settings.fields[k])
      && Utf16Length(stringify(Obj(v))) <= MaxSettingsJsonLength
    ensures settings.Obj? && Utf16Length(stringify(Obj(Allowlisted(settings.fields)))) <= MaxSettingsJsonLength ==>
      SettingsToSend(settings, stringify) == Some(Allowlisted(settings.fields))
  {
  }

  /** Sending validated settings again sends the same settings. */
  lemma AllowlistedIdempotent(fields: map<string, Json>)
    ensures Allowlisted(Allowlisted(fields)) == Allowlisted(fields)
  {
  }

  // ---------------------------------------------------------------------------
  // Subscriptions
  // ---------------------------------------------------------------------------

  /** One registered handler: the channel it listens on and its identity. */
  datatype Handler = Handler(channel: string, id: nat)

  /** `xs` without its last occurrence of `h`, as `removeListener` removes a listener. */
  function RemoveLast(xs: seq<Handler>, h: Handler): (r: seq<Handler>)
    ensures |r| == (if h in xs then |xs| - 1 else |xs|)
  {
    if xs == [] then []
    else if xs[|xs| - 1] == h then xs[..|xs| - 1]
    else RemoveLast(xs[..|xs| - 1], h) + [xs[|xs| - 1]]
  }

  /** Removing a handler that is not registered changes nothing, so a disposer may run twice. */
  lemma {:induction false} RemoveAbsent(xs: seq<Handler>, h: Handler)
    requires h !in xs
    ensures RemoveLast(xs, h) == xs
  {
    if xs != [] {
      assert h !in xs[..|xs| - 1];
      RemoveAbsent(xs[..|xs| - 1], h);
      assert xs[..|xs| - 1] + [xs[|xs| - 1]] == xs;
    }
  }

  /** Removing one handler leaves every other handler, and no handler twice. */
  lemma {:induction false} RemoveKeepsOthers(xs: seq<Handler>, h: Handler)
    requires Distinct(xs)
    ensures h !in RemoveLast(xs, h)
    ensures forall g :: g != h ==> (g in RemoveLast(xs, h) <==> g in xs)
    ensures Distinct(RemoveLast(xs, h))
  {
    if xs != [] {
      var init, last := xs[..|xs| - 1], xs[|xs| - 1];
      assert xs == init + [last];
      assert Distinct(init);
      assert last !in init;
      if last != h {
        RemoveKeepsOthers(init, h);
        var r := RemoveLast(init, h);
        assert last !in r;
        assert RemoveLast(xs, h) == r + [last];
      }
    }
  }

  /** The listeners of the page's IPC connection, as `ipcRenderer` keeps them. */
  class ListenerRegistry {
    var listeners: seq<Handler>
    var nextId: nat

    /** Every handler is registered once, under an identity never handed out again. */
    ghost predicate Valid()
      reads this
    {
      Distinct(listeners) && forall h | h in listeners :: h.id < nextId
    }

    constructor()
      ensures Valid() && listeners == []
    {
      listeners := [];
      nextId := 0;
    }

    /** The handlers listening on `channel`, in the order they were added. */
    function On(channel: string): (r: seq<Handler>)
      reads this
      ensures forall h :: h in r <==> h in listeners && h.channel == channel
    {
      Filter(listeners, channel)
    }

    /** An `on*` call: registers a fresh handler on `channel` and returns it, standing for the
        disposer that removes it. */
    method Subscribe(channel: string) returns (h: Handler)
      requires Valid()
      modifies this
      ensures Valid()
      ensures h.channel == channel && h !in old(listeners)
      ensures listeners == old(listeners) + [h]
    {
      h := Handler(channel, nextId);
      listeners := listeners + [h];
      nextId := nextId + 1;
    }

    /** The disposer returned for `h`: removes that handler and no other. */
    method Dispose(h: Handler)
      requires Valid()
      modifies this
      ensures Valid()
      ensures listeners == RemoveLast(old(listeners), h)
      ensures nextId == old(nextId)
    {
      RemoveKeepsOthers(listeners, h);
      listeners := RemoveLast(listeners, h);
    }
  }

  function Filter(xs: seq<Handler>, channel: string): (r: seq<Handler>)
    ensures forall h :: h in r <==> h in xs && h.channel == channel
  {
    if xs == [] then []
    else if xs[0].channel == channel then [xs[0]] + Filter(xs[1..], channel)
    else Filter(xs[1..], channel)
  }

  /** Disposing right after subscribing restores the listeners as they were. */
  lemma SubscribeDisposeRoundTrip(before: seq<Handler>, h: Handler)
    requires h !in before
    ensures RemoveLast(before + [h], h) == before
  {
    assert (before + [h])[..|before|] == before;
  }

  /** Subscribing, then disposing, then disposing again leaves the registry as it began. */
  method SubscribeThenDispose(r: ListenerRegistry, channel: string) returns (h: Handler)
    requires r.Valid()
    modifies r
    ensures r.Valid() && r.listeners == old(r.listeners)
    ensures h.channel == channel
  {
    h := r.Subscribe(channel);
    SubscribeDisposeRoundTrip(old(r.listeners), h);
    r.Dispose(h);
    assert h !in r.listeners;
    RemoveAbsent(r.listeners, h);
    r.Dispose(h);
  }
}
