/** The character-sheet arithmetic of an entity row: bonus summation, ability modifiers, saves,
    initiative, input bounds, numeric input acceptance, the exact-key predicate of bound
    actions, and the roll/reset of a check. */
module Entities {
  import opened Outcomes
  import opened Tokens
  import opened Dice
  import Parsers

  /** A JavaScript number as the sheet uses it: an integer, or NaN once an undefined
      property or an unparsable attribute has entered the arithmetic. */
  datatype Num = NaN | Val(v: int) {

    /** `+` on numbers: NaN absorbs. */
    function Plus(other: Num): (r: Num)
      ensures r.Val? <==> this.Val? && other.Val?
    {
      if this.Val? && other.Val? then Val(this.v + other.v) else NaN
    }
  }

  /** Reading `this[name]`: a missing property is `undefined`, which turns a sum into NaN. */
  function Prop(p: map<string, Num>, name: string): Num {
    if name in p then p[name] else NaN
  }

  // ---------------------------------------------------------------------------------------
  // String.prototype.split(" ") and its inverse

  function Split(s: string): (parts: seq<string>)
    ensures |parts| >= 1
    ensures forall i :: 0 <= i < |parts| ==> ' ' !in parts[i]
  {
    if |s| == 0 then [""]
    else
      var rest := Split(s[1..]);
      if s[0] == ' ' then [""] + rest else [[s[0]] + rest[0]] + rest[1..]
  }

  /** `Array.prototype.join(" ")`. */
  function Join(parts: seq<string>): string {
    Parsers.Join(parts, " ")
  }

  lemma {:induction false} JoinSplit(s: string)
    ensures Join(Split(s)) == s
  {
    if |s| > 0 {
      var rest := Split(s[1..]);
      JoinSplit(s[1..]);
      if s[0] == ' ' {
        assert Split(s) == [""] + rest;
        assert Join(Split(s)) == "" + " " + Join(rest);
      } else {
        JoinHead(s[0], rest);
      }
      assert s == [s[0]] + s[1..];
    }
  }

  lemma JoinHead(c: char, rest: seq<string>)
    requires |rest| >= 1
    ensures Join([[c] + rest[0]] + rest[1..]) == [c] + Join(rest)
  {
    var parts := [[c] + rest[0]] + rest[1..];
    if |rest| > 1 {
      assert parts[1..] == rest[1..];
    }
  }

  /** Splitting a word that holds no space in front of `rest` glues the word to the first part. */
  lemma {:induction false} SplitPrefix(w: string, rest: string)
    requires ' ' !in w
    ensures Split(w + rest) == [w + Split(rest)[0]] + Split(rest)[1..]
  {
    if |w| > 0 {
      SplitPrefix(w[1..], rest);
      assert (w + rest)[1..] == w[1..] + rest;
      assert (w + rest)[0] == w[0];
      assert [w[0]] + (w[1..] + Split(rest)[0]) == w + Split(rest)[0];
    } else {
      var r := Split(rest);
      assert w + rest == rest;
      assert w + r[0] == r[0];
      assert r == [r[0]] + r[1..];
    }
  }

  /** Words without spaces survive a join followed by a split. */
  lemma {:induction false} SplitJoin(parts: seq<string>)
    requires |parts| >= 1
    requires forall i :: 0 <= i < |parts| ==> ' ' !in parts[i]
    ensures Split(Join(parts)) == parts
  {
    if |parts| == 1 {
      SplitPrefix(parts[0], "");
      assert parts[0] + "" == parts[0];
    } else {
      var tail := Join(parts[1..]);
      SplitJoin(parts[1..]);
      assert parts[0] + " " + tail == parts[0] + (" " + tail);
      SplitPrefix(parts[0], " " + tail);
      assert (" " + tail)[1..] == tail;
      assert Split(" " + tail) == [""] + parts[1..];
      assert parts[0] + "" == parts[0];
      assert parts == [parts[0]] + parts[1..];
    }
  }

  // ---------------------------------------------------------------------------------------
  // getBonuses

  /** The loop `bonus += this[bonusAttr]` over the names of a bonus list. */
  function SumNames(names: seq<string>, p: map<string, Num>, bonus: Num): Num {
    if |names| == 0 then bonus else SumNames(names[1..], p, bonus.Plus(Prop(p, names[0])))
  }

  /** getBonuses: the names listed, space-separated, in the property `<attribute>Bonuses`, summed;
      0 when there is no such property. */
  function GetBonuses(p: map<string, Num>, lists: map<string, string>, attribute: string): (bonus: Num)
    ensures attribute + "Bonuses" !in lists ==> bonus == Val(0)
  {
    var name := attribute + "Bonuses";
    if name in lists then SumNames(Split(lists[name]), p, Val(0)) else Val(0)
  }

  /** Reference sum: every name listed holds a number, and their total. */
  predicate AllNumbers(names: seq<string>, p: map<string, Num>) {
    forall i :: 0 <= i < |names| ==> Prop(p, names[i]).Val?
  }

  function Total(names: seq<string>, p: map<string, Num>): int
    requires AllNumbers(names, p)
  {
    if |names| == 0 then 0 else Prop(p, names[0]).v + Total(names[1..], p)
  }

  lemma {:induction false} SumNamesMeaning(names: seq<string>, p: map<string, Num>, bonus: Num)
    ensures SumNames(names, p, bonus) ==
      if bonus.Val? && AllNumbers(names, p) then Val(bonus.v + Total(names, p)) else NaN
    decreases |names|
  {
    if |names| > 0 {
      var next := bonus.Plus(Prop(p, names[0]));
      SumNamesMeaning(names[1..], p, next);
      assert AllNumbers(names, p) <==> Prop(p, names[0]).Val? && AllNumbers(names[1..], p) by {
        if Prop(p, names[0]).Val? && AllNumbers(names[1..], p) {
          forall i | 0 <= i < |names| ensures Prop(p, names[i]).Val? {
            if i > 0 { assert names[i] == names[1..][i - 1]; }
          }
        }
      }
    }
  }

  /** getBonuses is 0 without a list; with one, it is the sum of the values named, and NaN as
      soon as one name is missing or not a number. */
  lemma GetBonusesMeaning(p: map<string, Num>, lists: map<string, string>, attribute: string)
    ensures var name := attribute + "Bonuses";
      GetBonuses(p, lists, attribute) ==
        if name !in lists then Val(0)
        else if AllNumbers(Split(lists[name]), p) then Val(Total(Split(lists[name]), p))
        else NaN
  {
    var name := attribute + "Bonuses";
    if name in lists {
      SumNamesMeaning(Split(lists[name]), p, Val(0));
    }
  }

  lemma {:induction false} SumNamesFrame(names: seq<string>, p: map<string, Num>, q: map<string, Num>, bonus: Num)
    requires forall i :: 0 <= i < |names| ==> Prop(p, names[i]) == Prop(q, names[i])
    ensures SumNames(names, p, bonus) == SumNames(names, q, bonus)
    decreases |names|
  {
    if |names| > 0 {
      SumNamesFrame(names[1..], p, q, bonus.Plus(Prop(p, names[0])));
    }
  }

  // ---------------------------------------------------------------------------------------
  // Abilities and the properties the constructor assigns

  datatype Ability = Str | Dex | Con | Int | Wis | Cha

  /** `Entity.abilities`, in its order. */
  const Abilities: seq<Ability> := [Str, Dex, Con, Int, Wis, Cha]

  function Name(a: Ability): (n: string)
    ensures |n| == 3
  {
    match a
    case Str => "str"
    case Dex => "dex"
    case Con => "con"
    case Int => "int"
    case Wis => "wis"
    case Cha => "cha"
  }

  /** The names of `Entity.abilities`, in order. */
  const AbilityNames: seq<string> := [Name(Str), Name(Dex), Name(Con), Name(Int), Name(Wis), Name(Cha)]

  function ModKey(a: Ability): (k: string)
    ensures |k| == 6 && k[..3] == Name(a)
  {
    Name(a) + "Mod"
  }

  function SaveKey(a: Ability): (k: string)
    ensures |k| == 7 && k[..3] == Name(a)
  {
    Name(a) + "Save"
  }

  lemma NamesDistinct(a: Ability, b: Ability)
    ensures Name(a) == Name(b) ==> a == b
    ensures ModKey(a) == ModKey(b) ==> a == b
    ensures SaveKey(a) == SaveKey(b) ==> a == b
  {
    if a != b {
      assert Name(a)[0] != Name(b)[0] || Name(a)[1] != Name(b)[1];
    }
  }

  lemma EveryAbility()
    ensures forall a :: a in Abilities
  {
    forall a: Ability ensures a in Abilities {
      match a
      case Str => assert Abilities[0] == a;
      case Dex => assert Abilities[1] == a;
      case Con => assert Abilities[2] == a;
      case Int => assert Abilities[3] == a;
      case Wis => assert Abilities[4] == a;
      case Cha => assert Abilities[5] == a;
    }
  }

  /** Every property the constructor writes. */
  const Assigned: set<string> :=
    {"maxHp", "hp", "initiativeMod"} + (set a | a in Abilities :: Name(a))
      + (set a | a in Abilities :: ModKey(a)) + (set a | a in Abilities :: SaveKey(a))

  /** `Math.floor((score - 10) / 2)`. */
  function Modifier(score: Num): (m: Num)
    ensures m.Val? <==> score.Val?
    ensures m.Val? ==> 2 * m.v <= score.v - 10 <= 2 * m.v + 1
  {
    match score
    case NaN => NaN
    case Val(s) => Val((s - 10) / 2)
  }

  /** The first constructor loop: each score is its data attribute plus the score's bonuses,
      the bonuses read from the properties as they stand at that moment. */
  function AssignScores(abs: seq<Ability>, data: map<string, Num>, p: map<string, Num>, lists: map<string, string>): map<string, Num> {
    if |abs| == 0 then p
    else
      var a := abs[0];
      AssignScores(abs[1..], data, p[Name(a) := Prop(data, Name(a)).Plus(GetBonuses(p, lists, Name(a)))], lists)
  }

  /** The second constructor loop: `<ability>Mod`, then `<ability>Save`, ability by ability. */
  function AssignModifiers(abs: seq<Ability>, p: map<string, Num>, lists: map<string, string>): map<string, Num> {
    if |abs| == 0 then p
    else
      var a := abs[0];
      var withMod := p[ModKey(a) := Modifier(Prop(p, Name(a))).Plus(GetBonuses(p, lists, ModKey(a)))];
      var withSave := withMod[SaveKey(a) := Prop(withMod, ModKey(a)).Plus(GetBonuses(withMod, lists, SaveKey(a)))];
      AssignModifiers(abs[1..], withSave, lists)
  }

  datatype Bounds = Bounds(lower: Num, upper: Num)

  /** The band `[x + 1, x + 21]` of a rolled check whose modifier is `x`. */
  function Around(x: Num): (b: Bounds)
    ensures x.Val? ==> b == Bounds(Val(x.v + 1), Val(x.v + 21))
  {
    Bounds(x.Plus(Val(1)), x.Plus(Val(21)))
  }

  lemma AroundSpan(x: Num)
    ensures Around(x).lower.Val? ==> Around(x).upper == Val(Around(x).lower.v + 20)
  {
  }

  const BoundedKeys: set<string> :=
    {"hp", "initiative"} + (set a | a in Abilities :: ModKey(a)) + (set a | a in Abilities :: SaveKey(a))

  function BoundsOf(p: map<string, Num>, key: string): Bounds {
    if key == "hp" then Bounds(Val(0), Prop(p, "maxHp"))
    else if key == "initiative" then Around(Prop(p, "initiativeMod"))
    else Around(Prop(p, key))
  }

  /** `attributeBounds`: one band per bounded attribute. */
  function AttributeBounds(p: map<string, Num>): (b: map<string, Bounds>)
    ensures b.Keys == BoundedKeys
  {
    map k | k in BoundedKeys :: BoundsOf(p, k)
  }

  /** hp lies in `[0, maxHp]`; initiative, every modifier and every save in the band just above
      its own value (initiative's value being `initiativeMod`). */
  lemma AttributeBoundsMeaning(p: map<string, Num>)
    ensures var b := AttributeBounds(p);
      && b["hp"] == Bounds(Val(0), Prop(p, "maxHp"))
      && b["initiative"] == Around(Prop(p, "initiativeMod"))
      && (forall a :: b[ModKey(a)] == Around(Prop(p, ModKey(a))) && b[SaveKey(a)] == Around(Prop(p, SaveKey(a))))
  {
    var b := AttributeBounds(p);
    EveryAbility();
    forall a ensures b[ModKey(a)] == Around(Prop(p, ModKey(a))) && b[SaveKey(a)] == Around(Prop(p, SaveKey(a))) {
      assert ModKey(a) in BoundedKeys;
      assert SaveKey(a) in BoundedKeys;
      assert |ModKey(a)| != |"hp"| && |ModKey(a)| != |"initiative"|;
      assert |SaveKey(a)| != |"hp"| && |SaveKey(a)| != |"initiative"|;
    }
  }

  /** Every band other than hp's spans exactly 20 whenever its value is a number. */
  lemma BandsSpanTwenty(p: map<string, Num>)
    ensures var b := AttributeBounds(p);
      forall k :: k in b && k != "hp" && b[k].lower.Val? ==> b[k].upper == Val(b[k].lower.v + 20)
  {
    var b := AttributeBounds(p);
    forall k | k in b && k != "hp" && b[k].lower.Val? ensures b[k].upper == Val(b[k].lower.v + 20) {
      var x := if k == "initiative" then Prop(p, "initiativeMod") else Prop(p, k);
      assert b[k] == Around(x);
      AroundSpan(x);
    }
  }

  /** An entity row after construction: its dataset (already read by `parseInt`), its own
      numeric properties, its bonus-list properties, and its attribute bounds. */
  datatype Entity = Entity(data: map<string, Num>, props: map<string, Num>, lists: map<string, string>, bounds: map<string, Bounds>)

  /** The properties the constructor writes, in the order it writes them. */
  function WithHp(data: map<string, Num>, props: map<string, Num>): map<string, Num> {
    props["maxHp" := Prop(data, "maxHp")]["hp" := Prop(data, "maxHp")]
  }

  function WithInitiative(p: map<string, Num>, lists: map<string, string>): map<string, Num> {
    p["initiativeMod" := Prop(p, ModKey(Dex)).Plus(GetBonuses(p, lists, "initiative"))]
  }

  function Assemble(data: map<string, Num>, props: map<string, Num>, lists: map<string, string>): map<string, Num> {
    WithInitiative(AssignModifiers(Abilities, AssignScores(Abilities, data, WithHp(data, props), lists), lists), lists)
  }

  /** The arithmetic of the constructor; it writes no property outside `Assigned`. */
  function Construct(data: map<string, Num>, props: map<string, Num>, lists: map<string, string>): (e: Entity)
    ensures e.data == data && e.lists == lists
    ensures e.bounds == AttributeBounds(e.props)
    ensures forall k :: k !in Assigned ==> Prop(e.props, k) == Prop(props, k)
  {
    var p1 := WithHp(data, props);
    var p2 := AssignScores(Abilities, data, p1, lists);
    var p := Assemble(data, props, lists);
    assert forall k :: k !in Assigned ==> Prop(p, k) == Prop(props, k) by {
      forall k | k !in Assigned ensures Prop(p, k) == Prop(props, k) {
        ScoresUntouched(Abilities, data, p1, lists, k);
        ModifiersUntouched(Abilities, p2, lists, k);
      }
    }
    Entity(data, p, lists, AttributeBounds(p))
  }

  lemma {:induction false} ScoresUntouched(abs: seq<Ability>, data: map<string, Num>, p: map<string, Num>, lists: map<string, string>, k: string)
    requires forall a :: a in abs ==> Name(a) != k
    ensures Prop(AssignScores(abs, data, p, lists), k) == Prop(p, k)
    decreases |abs|
  {
    if |abs| > 0 {
      var a := abs[0];
      ScoresUntouched(abs[1..], data, p[Name(a) := Prop(data, Name(a)).Plus(GetBonuses(p, lists, Name(a)))], lists, k);
    }
  }

  lemma {:induction false} ModifiersUntouched(abs: seq<Ability>, p: map<string, Num>, lists: map<string, string>, k: string)
    requires forall a :: a in abs ==> ModKey(a) != k && SaveKey(a) != k
    ensures Prop(AssignModifiers(abs, p, lists), k) == Prop(p, k)
    decreases |abs|
  {
    if |abs| > 0 {
      var a := abs[0];
      var withMod := p[ModKey(a) := Modifier(Prop(p, Name(a))).Plus(GetBonuses(p, lists, ModKey(a)))];
      var withSave := withMod[SaveKey(a) := Prop(withMod, ModKey(a)).Plus(GetBonuses(withMod, lists, SaveKey(a)))];
      ModifiersUntouched(abs[1..], withSave, lists, k);
    }
  }

  // ---------------------------------------------------------------------------------------
  // The constructor's formulas

  /** No bonus list names a property the constructor writes, so every `getBonuses` call of the
      constructor sees the properties the element started with. */
  predicate Isolated(lists: map<string, string>) {
    IsolatedFrom(lists, Assigned)
  }

  predicate IsolatedFrom(lists: map<string, string>, keys: set<string>) {
    forall k | k in lists :: forall i | 0 <= i < |Split(lists[k])| :: Split(lists[k])[i] !in keys
  }

  /** `p` and `q` agree on every property outside `keys`. */
  ghost predicate AgreeOutside(p: map<string, Num>, q: map<string, Num>, keys: set<string>) {
    forall n :: n !in keys ==> Prop(p, n) == Prop(q, n)
  }

  /** `keys` holds every property the constructor writes. */
  predicate Covers(keys: set<string>) {
    && "maxHp" in keys && "hp" in keys && "initiativeMod" in keys
    && forall a :: Name(a) in keys && ModKey(a) in keys && SaveKey(a) in keys
  }

  lemma AssignedCovers()
    ensures Covers(Assigned)
  {
    EveryAbility();
  }

  lemma BonusesFrame(p: map<string, Num>, q: map<string, Num>, lists: map<string, string>, attribute: string, keys: set<string>)
    requires IsolatedFrom(lists, keys) && AgreeOutside(p, q, keys)
    ensures GetBonuses(p, lists, attribute) == GetBonuses(q, lists, attribute)
  {
    var name := attribute + "Bonuses";
    if name in lists {
      SumNamesFrame(Split(lists[name]), p, q, Val(0));
    }
  }

  lemma {:induction false} ScoresFold(abs: seq<Ability>, data: map<string, Num>, p: map<string, Num>, lists: map<string, string>, p0: map<string, Num>, keys: set<string>)
    requires Covers(keys) && IsolatedFrom(lists, keys) && AgreeOutside(p, p0, keys)
    ensures var r := AssignScores(abs, data, p, lists);
      && AgreeOutside(r, p0, keys)
      && forall a :: a in abs ==> Prop(r, Name(a)) == Prop(data, Name(a)).Plus(GetBonuses(p0, lists, Name(a)))
    decreases |abs|
  {
    if |abs| > 0 {
      var a0 := abs[0];
      var tail := abs[1..];
      var next := p[Name(a0) := Prop(data, Name(a0)).Plus(GetBonuses(p, lists, Name(a0)))];
      BonusesFrame(p, p0, lists, Name(a0), keys);
      ScoresFold(tail, data, next, lists, p0, keys);
      var r := AssignScores(tail, data, next, lists);
      if a0 !in tail {
        forall a | a in tail ensures Name(a) != Name(a0) { NamesDistinct(a, a0); }
        ScoresUntouched(tail, data, next, lists, Name(a0));
      }
      assert forall a :: a in abs ==> a == a0 || a in tail;
    }
  }

  lemma {:induction false} ModifiersFold(abs: seq<Ability>, p: map<string, Num>, lists: map<string, string>, p0: map<string, Num>, keys: set<string>)
    requires Covers(keys) && IsolatedFrom(lists, keys) && AgreeOutside(p, p0, keys)
    ensures var r := AssignModifiers(abs, p, lists);
      && AgreeOutside(r, p0, keys)
      && forall a :: a in abs ==>
        && Prop(r, ModKey(a)) == Modifier(Prop(p, Name(a))).Plus(GetBonuses(p0, lists, ModKey(a)))
        && Prop(r, SaveKey(a)) == Prop(r, ModKey(a)).Plus(GetBonuses(p0, lists, SaveKey(a)))
    decreases |abs|
  {
    if |abs| > 0 {
      var a0 := abs[0];
      var tail := abs[1..];
      var withMod := p[ModKey(a0) := Modifier(Prop(p, Name(a0))).Plus(GetBonuses(p, lists, ModKey(a0)))];
      var withSave := withMod[SaveKey(a0) := Prop(withMod, ModKey(a0)).Plus(GetBonuses(withMod, lists, SaveKey(a0)))];
      BonusesFrame(p, p0, lists, ModKey(a0), keys);
      assert AgreeOutside(withMod, p0, keys);
      BonusesFrame(withMod, p0, lists, SaveKey(a0), keys);
      assert AgreeOutside(withSave, p0, keys);
      ModifiersFold(tail, withSave, lists, p0, keys);
      var r := AssignModifiers(tail, withSave, lists);
      forall a | a in tail ensures Prop(withSave, Name(a)) == Prop(p, Name(a)) {
        assert |Name(a)| != |ModKey(a0)| && |Name(a)| != |SaveKey(a0)|;
      }
      if a0 !in tail {
        forall a | a in tail ensures ModKey(a) != ModKey(a0) && SaveKey(a) != ModKey(a0) && ModKey(a) != SaveKey(a0) && SaveKey(a) != SaveKey(a0) {
          NamesDistinct(a, a0);
        }
        ModifiersUntouched(tail, withSave, lists, ModKey(a0));
        ModifiersUntouched(tail, withSave, lists, SaveKey(a0));
      }
      assert forall a :: a in abs ==> a == a0 || a in tail;
    }
  }

  /** The scores the first loop computes, and the modifiers the second loop computes from them. */
  function ScoresStage(data: map<string, Num>, props: map<string, Num>, lists: map<string, string>): map<string, Num> {
    AssignScores(Abilities, data, WithHp(data, props), lists)
  }

  function ModifiersStage(data: map<string, Num>, props: map<string, Num>, lists: map<string, string>): map<string, Num> {
    AssignModifiers(Abilities, ScoresStage(data, props, lists), lists)
  }

  lemma AssembleKeepsScore(data: map<string, Num>, props: map<string, Num>, lists: map<string, string>, a: Ability)
    ensures Prop(Assemble(data, props, lists), Name(a)) == Prop(ScoresStage(data, props, lists), Name(a))
  {
    assert |Name(a)| != |"initiativeMod"|;
    forall b | b in Abilities ensures ModKey(b) != Name(a) && SaveKey(b) != Name(a) {
      assert |ModKey(b)| != |Name(a)| && |SaveKey(b)| != |Name(a)|;
    }
    ModifiersUntouched(Abilities, ScoresStage(data, props, lists), lists, Name(a));
  }

  lemma AssembleKeepsModifier(data: map<string, Num>, props: map<string, Num>, lists: map<string, string>, a: Ability)
    ensures Prop(Assemble(data, props, lists), ModKey(a)) == Prop(ModifiersStage(data, props, lists), ModKey(a))
    ensures Prop(Assemble(data, props, lists), SaveKey(a)) == Prop(ModifiersStage(data, props, lists), SaveKey(a))
  {
    assert |ModKey(a)| != |"initiativeMod"| && |SaveKey(a)| != |"initiativeMod"|;
  }

  lemma ScoresStageMeaning(data: map<string, Num>, props: map<string, Num>, lists: map<string, string>)
    requires Isolated(lists)
    ensures var p2 := ScoresStage(data, props, lists);
      && AgreeOutside(p2, props, Assigned)
      && forall a :: Prop(p2, Name(a)) == Prop(data, Name(a)).Plus(GetBonuses(props, lists, Name(a)))
  {
    var keys := Assigned;
    AssignedCovers();
    EveryAbility();
    assert AgreeOutside(WithHp(data, props), props, keys);
    ScoresFold(Abilities, data, WithHp(data, props), lists, props, keys);
  }

  lemma ModifiersStageMeaning(data: map<string, Num>, props: map<string, Num>, lists: map<string, string>)
    requires Isolated(lists)
    ensures var p2 := ScoresStage(data, props, lists);
      var p3 := ModifiersStage(data, props, lists);
      && AgreeOutside(p3, props, Assigned)
      && forall a ::
        && Prop(p3, ModKey(a)) == Modifier(Prop(p2, Name(a))).Plus(GetBonuses(props, lists, ModKey(a)))
        && Prop(p3, SaveKey(a)) == Prop(p3, ModKey(a)).Plus(GetBonuses(props, lists, SaveKey(a)))
  {
    var keys := Assigned;
    ScoresStageMeaning(data, props, lists);
    AssignedCovers();
    EveryAbility();
    ModifiersFold(Abilities, ScoresStage(data, props, lists), lists, props, keys);
  }

  lemma ConstructHp(data: map<string, Num>, props: map<string, Num>, lists: map<string, string>)
    ensures var p := Assemble(data, props, lists);
      Prop(p, "maxHp") == Prop(data, "maxHp") && Prop(p, "hp") == Prop(data, "maxHp")
  {
    var p1 := WithHp(data, props);
    var p2 := AssignScores(Abilities, data, p1, lists);
    forall k | k == "hp" || k == "maxHp" ensures Prop(Assemble(data, props, lists), k) == Prop(p1, k) {
      ScoresUntouched(Abilities, data, p1, lists, k);
      ModifiersUntouched(Abilities, p2, lists, k);
    }
  }

  lemma ConstructScores(data: map<string, Num>, props: map<string, Num>, lists: map<string, string>)
    requires Isolated(lists)
    ensures var p := Assemble(data, props, lists);
      forall a :: Prop(p, Name(a)) == Prop(data, Name(a)).Plus(GetBonuses(props, lists, Name(a)))
  {
    ScoresStageMeaning(data, props, lists);
    forall a ensures Prop(Assemble(data, props, lists), Name(a)) == Prop(ScoresStage(data, props, lists), Name(a)) {
      AssembleKeepsScore(data, props, lists, a);
    }
  }

  lemma ConstructModifiers(data: map<string, Num>, props: map<string, Num>, lists: map<string, string>)
    requires Isolated(lists)
    ensures var p := Assemble(data, props, lists);
      && (forall a :: Prop(p, ModKey(a)) == Modifier(Prop(p, Name(a))).Plus(GetBonuses(props, lists, ModKey(a))))
      && (forall a :: Prop(p, SaveKey(a)) == Prop(p, ModKey(a)).Plus(GetBonuses(props, lists, SaveKey(a))))
  {
    ModifiersStageMeaning(data, props, lists);
    forall a
      ensures Prop(Assemble(data, props, lists), Name(a)) == Prop(ScoresStage(data, props, lists), Name(a))
      ensures Prop(Assemble(data, props, lists), ModKey(a)) == Prop(ModifiersStage(data, props, lists), ModKey(a))
      ensures Prop(Assemble(data, props, lists), SaveKey(a)) == Prop(ModifiersStage(data, props, lists), SaveKey(a))
    {
      AssembleKeepsScore(data, props, lists, a);
      AssembleKeepsModifier(data, props, lists, a);
    }
  }

  lemma ConstructInitiative(data: map<string, Num>, props: map<string, Num>, lists: map<string, string>)
    requires Isolated(lists)
    ensures var p := Assemble(data, props, lists);
      Prop(p, "initiativeMod") == Prop(p, ModKey(Dex)).Plus(GetBonuses(props, lists, "initiative"))
  {
    var p3 := ModifiersStage(data, props, lists);
    ModifiersStageMeaning(data, props, lists);
    AssignedCovers();
    BonusesFrame(p3, props, lists, "initiative", Assigned);
    AssembleKeepsModifier(data, props, lists, Dex);
  }

  /** When no bonus list names a property the constructor writes: hp starts at maxHp; each score
      is its data attribute plus its bonuses; each modifier is `floor((score - 10) / 2)` plus the
      modifier's bonuses; each save is the modifier plus the save's bonuses; initiativeMod is
      dexMod plus the initiative bonuses; and the bounds are built from those values. */
  lemma ConstructMeaning(data: map<string, Num>, props: map<string, Num>, lists: map<string, string>)
    requires Isolated(lists)
    ensures var e := Construct(data, props, lists);
      && Prop(e.props, "maxHp") == Prop(data, "maxHp")
      && Prop(e.props, "hp") == Prop(data, "maxHp")
      && (forall a :: Prop(e.props, Name(a)) == Prop(data, Name(a)).Plus(GetBonuses(props, lists, Name(a))))
      && (forall a :: Prop(e.props, ModKey(a)) == Modifier(Prop(e.props, Name(a))).Plus(GetBonuses(props, lists, ModKey(a))))
      && (forall a :: Prop(e.props, SaveKey(a)) == Prop(e.props, ModKey(a)).Plus(GetBonuses(props, lists, SaveKey(a))))
      && Prop(e.props, "initiativeMod") == Prop(e.props, ModKey(Dex)).Plus(GetBonuses(props, lists, "initiative"))
  {
    assert Construct(data, props, lists).props == Assemble(data, props, lists);
    ConstructHp(data, props, lists);
    ConstructScores(data, props, lists);
    ConstructModifiers(data, props, lists);
    ConstructInitiative(data, props, lists);
  }

  // ---------------------------------------------------------------------------------------
  // input: accepting a typed value

  /** All decimal digits, at least one. */
  predicate Digits(s: string) {
    |s| > 0 && forall i :: 0 <= i < |s| ==> IsDigit(s[i])
  }

  /** The test `/^(\-?)[0-9]+$/`: an optional minus sign, then one or more digits, nothing else. */
  predicate IsIntegerText(s: string): (b: bool)
    ensures b <==>
      && |s| > 0
      && (IsDigit(s[0]) || (s[0] == '-' && |s| > 1))
      && forall i :: 0 < i < |s| ==> IsDigit(s[i])
  {
    if |s| > 0 && s[0] == '-' then Digits(s[1..]) else Digits(s)
  }

  function DigitsValue(s: string): (n: nat)
    requires forall i :: 0 <= i < |s| ==> IsDigit(s[i])
  {
    if |s| == 0 then 0
    else
      assert IsDigit(s[|s| - 1]);
      10 * DigitsValue(s[..|s| - 1]) + (s[|s| - 1] as int - '0' as int)
  }

  /** `parseInt` of a text that passed the test. */
  function IntegerValue(s: string): int
    requires IsIntegerText(s)
  {
    if |s| > 0 && s[0] == '-' then -(DigitsValue(s[1..]) as int) else DigitsValue(s)
  }

  /** Decimal rendering, the partner of `IntegerValue`. */
  function ShowNat(n: nat): (s: string)
    ensures Digits(s)
  {
    if n < 10 then [('0' as int + n) as char] else ShowNat(n / 10) + [('0' as int + n % 10) as char]
  }

  function ShowInt(n: int): string {
    if n < 0 then "-" + ShowNat(-n) else ShowNat(n)
  }

  lemma {:induction false} ShowNatValue(n: nat)
    ensures DigitsValue(ShowNat(n)) == n
  {
    if n >= 10 {
      var s := ShowNat(n);
      ShowNatValue(n / 10);
      assert s[..|s| - 1] == ShowNat(n / 10);
    }
  }

  /** Every integer, written in decimal, passes the test and reads back as itself. */
  lemma ShowIntRoundTrip(n: int)
    ensures IsIntegerText(ShowInt(n)) && IntegerValue(ShowInt(n)) == n
  {
    if n < 0 {
      ShowNatValue(-n);
      assert ShowInt(n)[1..] == ShowNat(-n);
    } else {
      ShowNatValue(n);
    }
  }

  /** `lower <= value && value <= upper`; any comparison with NaN is false. */
  predicate Within(b: Bounds, n: int) {
    b.lower.Val? && b.upper.Val? && b.lower.v <= n <= b.upper.v
  }

  function CheckKey(attribute: string): string {
    attribute + "Check"
  }

  /** Where one answer to the prompt leaves the dataset: cancelled or accepted ends the input,
      anything else asks again. */
  datatype Prompt = Done(data: map<string, Num>) | Again

  /** One round of `input(attribute)` given the answer typed (`None` for a cancelled prompt).
      Reading the bounds of an attribute that has none fails before the prompt appears. */
  function Input(bounds: map<string, Bounds>, data: map<string, Num>, attribute: string, answer: Option<string>): (r: Outcome<Prompt>)
    ensures r.Failure? <==> attribute !in bounds
    ensures r.Failure? ==> r.error == TypeError
    ensures answer.None? && attribute in bounds ==> r == Success(Done(data))
    ensures r == Success(Again) <==>
      attribute in bounds && answer.Some? && !(IsIntegerText(answer.value) && Within(bounds[attribute], IntegerValue(answer.value)))
    ensures (r.Success? && r.value.Done? && answer.Some?) ==>
      && IsIntegerText(answer.value) && Within(bounds[attribute], IntegerValue(answer.value))
      && r.value.data == data[CheckKey(attribute) := Val(IntegerValue(answer.value))]
  {
    if attribute !in bounds then Failure(TypeError)
    else
      match answer
      case None => Success(Done(data))
      case Some(text) =>
        if IsIntegerText(text) && Within(bounds[attribute], IntegerValue(text))
        then Success(Done(data[CheckKey(attribute) := Val(IntegerValue(text))]))
        else Success(Again)
  }

  /** Typing any integer within the bounds stores exactly that integer as the check. */
  lemma InputStoresWithin(bounds: map<string, Bounds>, data: map<string, Num>, attribute: string, n: int)
    requires attribute in bounds && Within(bounds[attribute], n)
    ensures Input(bounds, data, attribute, Some(ShowInt(n))) == Success(Done(data[CheckKey(attribute) := Val(n)]))
  {
    ShowIntRoundTrip(n);
  }

  // ---------------------------------------------------------------------------------------
  // The key predicate of a bound action

  /** The reducer `value && eventAction.keys[key] == event[key]`: a key the event lacks reads
      as `undefined`, which equals neither `true` nor `false`. */
  predicate KeyAgrees(keys: map<string, bool>, event: map<string, bool>, key: string)
    requires key in keys
  {
    key in event && event[key] == keys[key]
  }

  /** An action fires when every listed key has the wanted state in the event. */
  predicate KeysMatch(keys: map<string, bool>, event: map<string, bool>) {
    forall key :: key in keys ==> key in event && event[key] == keys[key]
  }

  /** The reduce over `Object.keys(eventAction.keys)`, which lists every key exactly once. */
  method Fires(keys: map<string, bool>, order: seq<string>, event: map<string, bool>) returns (fire: bool)
    requires forall key :: key in keys <==> key in order
    ensures fire <==> KeysMatch(keys, event)
    ensures |keys| == 0 ==> fire
  {
    fire := true;
    var i := 0;
    while i < |order|
      invariant 0 <= i <= |order|
      invariant fire <==> forall j :: 0 <= j < i ==> KeyAgrees(keys, event, order[j])
    {
      fire := fire && KeyAgrees(keys, event, order[i]);
      i := i + 1;
    }
    if fire {
      forall key | key in keys ensures key in event && event[key] == keys[key] {
        var j :| 0 <= j < |order| && order[j] == key;
        assert KeyAgrees(keys, event, order[j]);
      }
    }
  }

  // ---------------------------------------------------------------------------------------
  // roll and reset

  /** The roll `"d20"` stands for when `roll` is called without one: one twenty-sided die, added. */
  const D20: seq<RollTerm> := [RollTerm(1, 20, "+")]

  /** roll(attribute, roll): the dice (`D20` when omitted) plus the attribute's bonuses, stored as
      the attribute's check. A throw of rollDie propagates and stores nothing. */
  function RollCheck(e: Entity, attribute: string, roll: Option<seq<RollTerm>>, face: int -> int): (r: Outcome<map<string, Num>>)
    ensures r.Success? <==> AllValid(roll.GetOr(D20))
    ensures r.Success? ==> r.value == e.data[CheckKey(attribute) :=
      Val(SignedTotal(roll.GetOr(D20), face)).Plus(GetBonuses(e.props, e.lists, attribute))]
    ensures r.Failure? ==> r.error == UnrecognizedSign(roll.GetOr(D20)[FirstInvalid(roll.GetOr(D20))].sign)
  {
    RollDieMeaning(roll.GetOr(D20), face);
    match RollDie(roll.GetOr(D20), face)
    case Failure(err) => Failure(err)
    case Success(total) => Success(e.data[CheckKey(attribute) := Val(total).Plus(GetBonuses(e.props, e.lists, attribute))])
  }

  /** Without a roll, the check is one throw of a d20 plus the bonuses; with the lowest and the
      highest face it lies 1 and 20 above the bonuses. */
  lemma DefaultRoll(e: Entity, attribute: string, face: int -> int)
    ensures RollCheck(e, attribute, None, face) ==
      Success(e.data[CheckKey(attribute) := Val(face(20)).Plus(GetBonuses(e.props, e.lists, attribute))])
    ensures RollCheck(e, attribute, None, RollDieMin) ==
      Success(e.data[CheckKey(attribute) := Val(1).Plus(GetBonuses(e.props, e.lists, attribute))])
    ensures RollCheck(e, attribute, None, RollDieMax) ==
      Success(e.data[CheckKey(attribute) := Val(20).Plus(GetBonuses(e.props, e.lists, attribute))])
  {
    assert AllValid(D20) by { assert Valid(D20[0]); }
    assert SignedTotal(D20, face) == face(20);
    assert SignedTotal(D20, RollDieMin) == 1;
    assert SignedTotal(D20, RollDieMax) == 20;
  }

  /** reset(attribute): the attribute's check is gone, every other dataset entry is kept. */
  function Reset(data: map<string, Num>, attribute: string): (r: map<string, Num>)
    ensures CheckKey(attribute) !in r
    ensures forall k :: k != CheckKey(attribute) ==> (k in r <==> k in data) && (k in r ==> r[k] == data[k])
  {
    data - {CheckKey(attribute)}
  }

  /** Resetting after a successful roll leaves the dataset as resetting alone would. */
  lemma ResetAfterRoll(e: Entity, attribute: string, roll: Option<seq<RollTerm>>, face: int -> int)
    requires RollCheck(e, attribute, roll, face).Success?
    ensures Reset(RollCheck(e, attribute, roll, face).value, attribute) == Reset(e.data, attribute)
  {
    var stored := RollCheck(e, attribute, roll, face).value;
    var key := CheckKey(attribute);
    assert stored == e.data[key := stored[key]];
    UpdateThenRemove(e.data, key, stored[key]);
  }

  lemma UpdateThenRemove(m: map<string, Num>, key: string, value: Num)
    ensures m[key := value] - {key} == m - {key}
  {
  }
}
