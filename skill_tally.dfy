/**
  The dashboard's skill tally (app.js): a `reduce` over the user's rows whose
  nested `forEach` splits each row's skills on ',' and adds one to
  `acc[skill.trim()]`, starting from `{}`.

  The intended result is a count per trimmed token (`Tally`, computed in place
  by `TallySkills`). The object `{}` is not an empty dictionary, though: it
  inherits the members of `Object.prototype`, and `TallyAsWritten` models what
  the code then does for tokens such as "toString" or "__proto__".
*/
module SkillTally {
  import opened JsString
  import opened Sequences
  import opened SkillParsing

  /** The number of comma-separated pieces over all rows' skills. */
  function PieceCount(fields: seq<string>): nat
  {
    if |fields| == 0 then 0 else PieceCount(fields[..|fields| - 1]) + Count(fields[|fields| - 1], ',') + 1
  }

  /** The tokens the nested `forEach` visits, row by row, piece by piece, each trimmed. */
  function AllTokens(fields: seq<string>): (ts: seq<string>)
    ensures |ts| == PieceCount(fields)
  {
    if |fields| == 0 then [] else AllTokens(fields[..|fields| - 1]) + SplitTrim(fields[|fields| - 1])
  }

  /** Every visited token is trimmed and holds no comma. */
  lemma {:induction false} AllTokensShape(fields: seq<string>)
    ensures forall t :: t in AllTokens(fields) ==> IsTrimmed(t) && ',' !in t
  {
    if |fields| > 0 {
      AllTokensShape(fields[..|fields| - 1]);
      SplitTrimShape(fields[|fields| - 1]);
    }
  }

  // ---------------------------------------------------------------------------
  // The intended tally

  /** The count of every token: one more for each occurrence, in visiting order. */
  function Tally(tokens: seq<string>): (m: map<string, nat>)
  {
    if |tokens| == 0 then map[]
    else
      var m := Tally(tokens[..|tokens| - 1]);
      var t := tokens[|tokens| - 1];
      m[t := (if t in m then m[t] else 0) + 1]
  }

  /** One increment `acc[t] = (acc[t] || 0) + 1` extends the tally by the token `t`. */
  lemma TallyStep(seen: seq<string>, t: string, counts: map<string, nat>)
    requires counts == Tally(seen)
    ensures counts[t := (if t in counts then counts[t] else 0) + 1] == Tally(seen + [t])
  {
    TallySnoc(seen, t);
  }

  lemma TallySnoc(tokens: seq<string>, t: string)
    ensures Tally(tokens + [t]) ==
            Tally(tokens)[t := (if t in Tally(tokens) then Tally(tokens)[t] else 0) + 1]
  {
    assert (tokens + [t])[..|tokens|] == tokens;
  }

  /**
    The keys are exactly the tokens, and each key's count is its number of
    occurrences, so at least one.
  */
  lemma {:induction false} TallyCounts(tokens: seq<string>)
    ensures forall k :: k in Tally(tokens) <==> k in tokens
    ensures forall k :: k in Tally(tokens) ==> Tally(tokens)[k] == multiset(tokens)[k] >= 1
  {
    if |tokens| > 0 {
      var front := tokens[..|tokens| - 1];
      var t := tokens[|tokens| - 1];
      assert tokens == front + [t];
      TallyCounts(front);
    }
  }

  /** The sum of `m`'s values at the keys `ks`. */
  function SumAt(m: map<string, nat>, ks: seq<string>): nat
    requires forall k :: k in ks ==> k in m
  {
    if |ks| == 0 then 0 else SumAt(m, ks[..|ks| - 1]) + m[ks[|ks| - 1]]
  }

  /** The sum of the multiplicities in `s` of the keys `ks`. */
  function Multiplicities(s: seq<string>, ks: seq<string>): nat
  {
    if |ks| == 0 then 0 else Multiplicities(s, ks[..|ks| - 1]) + multiset(s)[ks[|ks| - 1]]
  }

  lemma {:induction false} MultiplicitiesSnoc(s: seq<string>, x: string, ks: seq<string>)
    requires NoDup(ks)
    ensures Multiplicities(s + [x], ks) == Multiplicities(s, ks) + (if x in ks then 1 else 0)
  {
    if |ks| > 0 {
      var front := ks[..|ks| - 1];
      assert ks == front + [ks[|ks| - 1]];
      assert NoDup(front);
      MultiplicitiesSnoc(s, x, front);
    }
  }

  /** Summing the multiplicities of the distinct elements counts every element once. */
  lemma {:induction false} MultiplicitiesAll(s: seq<string>)
    ensures Multiplicities(s, Dedup(s)) == |s|
  {
    if |s| > 0 {
      var front := s[..|s| - 1];
      var x := s[|s| - 1];
      assert s == front + [x];
      var d := Dedup(front);
      DedupSnoc(front, x);
      MultiplicitiesAll(front);
      MultiplicitiesSnoc(front, x, d);
      if x !in d {
        assert (d + [x])[..|d|] == d;
      }
    }
  }

  lemma {:induction false} SumAtMultiplicities(tokens: seq<string>, ks: seq<string>)
    requires forall k :: k in ks ==> k in Tally(tokens)
    ensures SumAt(Tally(tokens), ks) == Multiplicities(tokens, ks)
  {
    if |ks| > 0 {
      TallyCounts(tokens);
      SumAtMultiplicities(tokens, ks[..|ks| - 1]);
    }
  }

  /**
    What the dashboard promises: the keys are exactly the trimmed tokens (none
    holds a comma), each counted at least once, and the counts, summed over the
    keys taken once each, are the number of comma-separated pieces of all rows.
  */
  lemma TallyOfRows(fields: seq<string>)
    ensures var m := Tally(AllTokens(fields));
            var ks := Dedup(AllTokens(fields));
            && NoDup(ks) && (forall k :: k in ks <==> k in m)
            && (forall k :: k in m ==> IsTrimmed(k) && ',' !in k && m[k] >= 1)
            && SumAt(m, ks) == PieceCount(fields)
  {
    var ts := AllTokens(fields);
    AllTokensShape(fields);
    TallyCounts(ts);
    SumAtMultiplicities(ts, Dedup(ts));
    MultiplicitiesAll(ts);
  }

  // ---------------------------------------------------------------------------
  // The tally, as the source performs it

  /** The callback `skill => { acc[skill.trim()] = (acc[skill.trim()] || 0) + 1; }`. */
  method TallyPiece(counts0: map<string, nat>, ghost seen: seq<string>, skill: string)
    returns (counts: map<string, nat>)
    requires counts0 == Tally(seen)
    ensures counts == Tally(seen + [Trim(skill)])
  {
    var key := Trim(skill);
    TallyStep(seen, key, counts0);
    counts := counts0[key := (if key in counts0 then counts0[key] else 0) + 1];
  }

  /** The inner `forEach` over the pieces of one row's `skills.split(',')`. */
  method TallyRow(counts0: map<string, nat>, ghost done: seq<string>, pieces: seq<string>)
    returns (counts: map<string, nat>)
    requires counts0 == Tally(done)
    ensures counts == Tally(done + TrimAll(pieces))
  {
    ghost var tokens := TrimAll(pieces);
    counts := counts0;
    assert done + tokens[..0] == done;
    var j := 0;
    ghost var seen := done;
    while j < |pieces|
      invariant 0 <= j <= |pieces|
      invariant seen == done + tokens[..j]
      invariant counts == Tally(seen)
    {
      counts := TallyPiece(counts, seen, pieces[j]);
      SnocAfter(done, tokens, j);
      seen := seen + [tokens[j]];
      j := j + 1;
    }
    PrefixAll(tokens);
  }

  lemma SnocAfter(done: seq<string>, tokens: seq<string>, j: nat)
    requires j < |tokens|
    ensures done + tokens[..j] + [tokens[j]] == done + tokens[..j + 1]
  {
    PrefixSnoc(tokens, j);
  }

  /** The dashboard's `reduce`: `counts` is `acc`, updated in place token by token. */
  method TallySkills(fields: seq<string>) returns (counts: map<string, nat>)
    ensures counts == Tally(AllTokens(fields))
  {
    counts := map[];
    assert fields[..0] == [];
    var r := 0;
    while r < |fields|
      invariant 0 <= r <= |fields|
      invariant counts == Tally(AllTokens(fields[..r]))
    {
      var pieces := Split(fields[r], ',');
      counts := TallyRow(counts, AllTokens(fields[..r]), pieces);
      AllTokensSnoc(fields, r);
      r := r + 1;
    }
    assert fields[..r] == fields;
  }

  lemma AllTokensSnoc(fields: seq<string>, r: nat)
    requires r < |fields|
    ensures AllTokens(fields[..r + 1]) == AllTokens(fields[..r]) + SplitTrim(fields[r])
  {
    PrefixOfPrefix(fields, r);
  }

  // ---------------------------------------------------------------------------
  // The tally as written: a plain object that inherits Object.prototype

  /** The values `acc[key]` can take: own numbers and strings, or inherited members. */
  datatype JsValue = Undefined | Num(n: nat) | Str(s: string) | NativeFunction(name: string) | ObjectPrototype

  /** The names of the members of `Object.prototype`, which every `{}` inherits. */
  const ObjectPrototypeNames: set<string> :=
    {"constructor", "__defineGetter__", "__defineSetter__", "hasOwnProperty",
     "__lookupGetter__", "__lookupSetter__", "isPrototypeOf", "propertyIsEnumerable",
     "toString", "valueOf", "__proto__", "toLocaleString"}

  /** `acc[k]` with `own` the own properties: the `__proto__` getter, an own value, an inherited member, or undefined. */
  function Get(own: map<string, JsValue>, k: string): (v: JsValue)
    ensures k !in ObjectPrototypeNames ==> v == (if k in own then own[k] else Undefined)
  {
    if k == "__proto__" then ObjectPrototype
    else if k in own then own[k]
    else if k == "constructor" then NativeFunction("Object")
    else if k in ObjectPrototypeNames then NativeFunction(k)
    else Undefined
  }

  /** `v || 0`. */
  function OrZero(v: JsValue): (r: JsValue)
    ensures !r.Undefined?
    ensures v.Num? ==> r == v
    ensures v.Undefined? ==> r == Num(0)
  {
    match v
    case Undefined => Num(0)
    case Str(s) => if s == "" then Num(0) else v
    case _ => v
  }

  /**
    `v + 1`: numbers add; anything else is converted to its string form (a
    native function's source text, or "[object Object]") and "1" is appended.
  */
  function PlusOne(v: JsValue): (r: JsValue)
    requires !v.Undefined?
    ensures v.Num? ==> r == Num(v.n + 1)
    ensures v.Str? ==> r == Str(v.s + "1")
    ensures v.NativeFunction? ==> r == Str("function " + v.name + "() { [native code] }" + "1")
    ensures v.ObjectPrototype? ==> r == Str("[object Object]" + "1")
    ensures !v.Num? ==> r.Str? && |r.s| >= 1 && r.s[|r.s| - 1] == '1'
  {
    match v
    case Num(n) => Num(n + 1)
    case Str(s) => Str(s + "1")
    case NativeFunction(name) => Str("function " + name + "() { [native code] }" + "1")
    case ObjectPrototype => Str("[object Object]" + "1")
  }

  /** `acc[k] = v` for a number or string `v`: the `__proto__` setter ignores it. */
  function Put(own: map<string, JsValue>, k: string, v: JsValue): (r: map<string, JsValue>)
    ensures k != "__proto__" ==> r == own[k := v]
    ensures k == "__proto__" ==> r == own
  {
    if k == "__proto__" then own else own[k := v]
  }

  /** The own properties of `acc` after the code visits `tokens`. */
  function TallyAsWritten(tokens: seq<string>): (own: map<string, JsValue>)
    ensures "__proto__" !in own
  {
    if |tokens| == 0 then map[]
    else
      var own := TallyAsWritten(tokens[..|tokens| - 1]);
      var t := tokens[|tokens| - 1];
      Put(own, t, PlusOne(OrZero(Get(own, t))))
  }

  /** The object gains own properties only for visited tokens. */
  lemma {:induction false} TallyAsWrittenKeys(tokens: seq<string>)
    ensures forall k :: k in TallyAsWritten(tokens) ==> k in tokens
  {
    if |tokens| > 0 {
      var front := tokens[..|tokens| - 1];
      TallyAsWrittenKeys(front);
      assert tokens == front + [tokens[|tokens| - 1]];
    }
  }

  /** The intended counts, as the object's own number-valued properties. */
  function AsNumbers(m: map<string, nat>): (r: map<string, JsValue>)
    ensures forall k :: k in r <==> k in m
    ensures forall k :: k in r ==> r[k] == Num(m[k])
  {
    map k | k in m :: Num(m[k])
  }

  /** When no token names a member of `Object.prototype`, the code computes the intended tally. */
  lemma {:induction false} TallyAsWrittenAgrees(tokens: seq<string>)
    requires forall i :: 0 <= i < |tokens| ==> tokens[i] !in ObjectPrototypeNames
    ensures TallyAsWritten(tokens) == AsNumbers(Tally(tokens))
  {
    if |tokens| > 0 {
      var front := tokens[..|tokens| - 1];
      var t := tokens[|tokens| - 1];
      assert forall i :: 0 <= i < |front| ==> front[i] == tokens[i];
      TallyAsWrittenAgrees(front);
      IncrementAgrees(Tally(front), t);
    }
  }

  /** On a key that is not inherited, one increment of the object matches one increment of the tally. */
  lemma IncrementAgrees(m: map<string, nat>, t: string)
    requires t !in ObjectPrototypeNames
    ensures Put(AsNumbers(m), t, PlusOne(OrZero(Get(AsNumbers(m), t))))
            == AsNumbers(m[t := (if t in m then m[t] else 0) + 1])
  {
    var c := (if t in m then m[t] else 0) + 1;
    assert Get(AsNumbers(m), t) == (if t in m then Num(m[t]) else Undefined);
    AsNumbersUpdate(m, t, c);
  }

  lemma AsNumbersUpdate(m: map<string, nat>, t: string, c: nat)
    ensures AsNumbers(m[t := c]) == AsNumbers(m)[t := Num(c)]
  {
    var l := AsNumbers(m[t := c]);
    var r := AsNumbers(m)[t := Num(c)];
    assert l.Keys == r.Keys;
    forall k | k in l ensures l[k] == r[k] {
    }
  }

  /** A token "toString" is counted as the text of a function with "1" after it. */
  lemma ToStringCounterexample()
    ensures Tally(["toString"]) == map["toString" := 1]
    ensures TallyAsWritten(["toString"]) ==
            map["toString" := Str("function toString() { [native code] }1")]
  {
    assert ["toString"][..0] == [];
    assert "function " + "toString" + "() { [native code] }" + "1" == "function toString() { [native code] }1";
  }

  /** A second "toString" appends another "1" to that text, where the intended count is 2. */
  lemma ToStringTwice()
    ensures Tally(["toString", "toString"]) == map["toString" := 2]
    ensures TallyAsWritten(["toString", "toString"]) ==
            map["toString" := Str("function toString() { [native code] }11")]
  {
    var once := ["toString"];
    assert ["toString", "toString"][..1] == once;
    ToStringCounterexample();
    var text := "function toString() { [native code] }1";
    assert text + "1" == "function toString() { [native code] }11";
  }

  /** A token "__proto__" is never counted: the assignment goes to the prototype setter. */
  lemma ProtoCounterexample()
    ensures Tally(["__proto__"]) == map["__proto__" := 1]
    ensures TallyAsWritten(["__proto__"]) == map[]
  {
    assert ["__proto__"][..0] == [];
  }
}
