/** The modifier-key flags of a bound action: every key named in the action is true, the three
    modifier keys default to false. */
module Actions {

  /** The starting object `{ alt: false, ctrl: false, shift: false }`. */
  const Defaults: map<string, bool> := map["alt" := false, "ctrl" := false, "shift" := false]

  /** The reducer `keys[key] = true` folded over the listed keys. */
  function SetKeys(flags: map<string, bool>, keys: seq<string>): (r: map<string, bool>)
    ensures forall k :: k in keys ==> k in r && r[k]
    ensures forall k :: k in flags ==> k in r && (flags[k] ==> r[k])
    decreases |keys|
  {
    if |keys| == 0 then flags
    else
      assert forall k :: k in keys ==> k == keys[0] || k in keys[1..] by {
        assert keys == [keys[0]] + keys[1..];
      }
      SetKeys(flags[keys[0] := true], keys[1..])
  }

  /** The flags of an action bound to `keys`. */
  function KeyFlags(keys: seq<string>): (r: map<string, bool>)
    ensures "alt" in r && "ctrl" in r && "shift" in r
    ensures forall k :: k in keys ==> k in r && r[k]
  {
    SetKeys(Defaults, keys)
  }

  lemma {:induction false} SetKeysMeaning(flags: map<string, bool>, keys: seq<string>)
    ensures var r := SetKeys(flags, keys);
      && r.Keys == flags.Keys + (set k | k in keys)
      && forall k :: k in r ==> r[k] == (k in keys || (k in flags && flags[k]))
    decreases |keys|
  {
    if |keys| > 0 {
      var next := flags[keys[0] := true];
      SetKeysMeaning(next, keys[1..]);
      assert (set k | k in keys) == {keys[0]} + (set k | k in keys[1..]) by {
        assert keys == [keys[0]] + keys[1..];
      }
      forall k | k in SetKeys(flags, keys) ensures SetKeys(flags, keys)[k] == (k in keys || (k in flags && flags[k])) {
        assert keys == [keys[0]] + keys[1..];
      }
    }
  }

  /** alt, ctrl and shift are always present; a key is true exactly when it is listed, so a
      modifier that is not listed stays false. */
  lemma KeyFlagsMeaning(keys: seq<string>)
    ensures var r := KeyFlags(keys);
      && r.Keys == {"alt", "ctrl", "shift"} + (set k | k in keys)
      && forall k :: k in r ==> (r[k] <==> k in keys)
  {
    SetKeysMeaning(Defaults, keys);
  }

  /** Only the set of listed keys matters: order and repetition do not. */
  lemma KeyFlagsBySet(a: seq<string>, b: seq<string>)
    requires forall k :: k in a <==> k in b
    ensures KeyFlags(a) == KeyFlags(b)
  {
    KeyFlagsMeaning(a);
    KeyFlagsMeaning(b);
    assert (set k | k in a) == (set k | k in b);
  }
}
