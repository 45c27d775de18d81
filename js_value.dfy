/** The configuration tree as the validator sees it: the loosely typed values
    of a parsed `serverless.yml`, with JavaScript's notions of truthiness,
    `_.isObject`, property read and property assignment. */
module JsValue {
  import opened Text

  /** One configuration value. `Nil` stands for both `undefined` and `null`
      (the validator only ever tests them together); numbers are integers. */
  datatype Value =
    | Nil
    | Bool(b: bool)
    | Num(n: int)
    | Str(s: string)
    | Arr(elems: seq<Value>)
    | Obj(entries: seq<Entry>)

  /** A property of an object, in declaration order. */
  datatype Entry = Entry(key: string, val: Value)

  /** JavaScript truthiness: `undefined`, `null`, `false`, `0` and `""` are falsy. */
  predicate Truthy(v: Value) {
    match v
    case Nil => false
    case Bool(b) => b
    case Num(n) => n != 0
    case Str(s) => s != ""
    case Arr(_) => true
    case Obj(_) => true
  }

  /** lodash `_.isObject`: arrays and plain objects. */
  predicate IsObject(v: Value) {
    v.Arr? || v.Obj?
  }

  predicate HasKey(es: seq<Entry>, k: string) {
    exists i :: 0 <= i < |es| && es[i].key == k
  }

  /** The value of the first property named `k`, `Nil` if there is none. */
  function Lookup(es: seq<Entry>, k: string): (v: Value)
    ensures !HasKey(es, k) ==> v == Nil
  {
    if es == [] then Nil else if es[0].key == k then es[0].val else Lookup(es[1..], k)
  }

  /** Property read `v.k`; reading a property of anything but a plain object
      gives `undefined` (arrays carry no named properties in this model). */
  function Get(v: Value, k: string): Value {
    if v.Obj? then Lookup(v.entries, k) else Nil
  }

  /** Property assignment: an existing property keeps its place and takes the
      new value; a new one is appended. */
  function Update(es: seq<Entry>, k: string, v: Value): seq<Entry> {
    if es == [] then [Entry(k, v)]
    else if es[0].key == k then [Entry(k, v)] + es[1..]
    else [es[0]] + Update(es[1..], k, v)
  }

  /** `o.k = v` (and `Object.assign(o, {k: v})`) on a plain object. */
  function Set(o: Value, k: string, v: Value): (r: Value)
    requires o.Obj?
  {
    Obj(Update(o.entries, k, v))
  }

  function Keys(es: seq<Entry>): seq<string> {
    if es == [] then [] else [es[0].key] + Keys(es[1..])
  }

  /** After `o.k = v`, reading `k` gives `v` and every other property is as before. */
  lemma {:induction false} LookupUpdate(es: seq<Entry>, k: string, v: Value, k': string)
    ensures Lookup(Update(es, k, v), k') == if k' == k then v else Lookup(es, k')
  {
    if es != [] && es[0].key != k {
      LookupUpdate(es[1..], k, v, k');
    }
  }

  /** Assignment keeps the order of existing properties and appends a new one at the end. */
  lemma {:induction false} KeysUpdate(es: seq<Entry>, k: string, v: Value)
    ensures Keys(Update(es, k, v)) == if HasKey(es, k) then Keys(es) else Keys(es) + [k]
  {
    if es != [] && es[0].key != k {
      KeysUpdate(es[1..], k, v);
      if HasKey(es[1..], k) {
        assert HasKey(es, k) by {
          var i :| 0 <= i < |es[1..]| && es[1..][i].key == k;
          assert es[i + 1].key == k;
        }
      } else {
        assert !HasKey(es, k) by {
          if i :| 0 <= i < |es| && es[i].key == k {
            assert i != 0;
            assert es[1..][i - 1].key == k;
          }
        }
      }
    } else if es != [] {
      assert HasKey(es, k) by { assert es[0].key == k; }
    }
  }

  /** Assigning a property the value it already has changes nothing. */
  lemma {:induction false} UpdateSame(es: seq<Entry>, k: string)
    requires HasKey(es, k)
    ensures Update(es, k, Lookup(es, k)) == es
  {
    if es[0].key != k {
      assert HasKey(es[1..], k) by {
        var i :| 0 <= i < |es| && es[i].key == k;
        assert es[1..][i - 1].key == k;
      }
      UpdateSame(es[1..], k);
      assert [es[0]] + es[1..] == es;
    } else {
      assert [Entry(k, es[0].val)] + es[1..] == es;
    }
  }

  lemma UpdateHasKey(es: seq<Entry>, k: string, v: Value)
    ensures HasKey(Update(es, k, v), k)
  {
    KeysUpdate(es, k, v);
    KeysHasKey(Update(es, k, v), k);
  }

  lemma {:induction false} KeysHasKey(es: seq<Entry>, k: string)
    ensures HasKey(es, k) <==> k in Keys(es)
  {
    if es != [] {
      KeysHasKey(es[1..], k);
      if HasKey(es[1..], k) {
        var i :| 0 <= i < |es[1..]| && es[1..][i].key == k;
        assert es[i + 1].key == k;
      }
      if HasKey(es, k) && es[0].key != k {
        var i :| 0 <= i < |es| && es[i].key == k;
        assert es[1..][i - 1].key == k;
      }
    }
  }

  /** `[].concat(v)`: an array is copied element for element, anything else
      becomes a one-element list. */
  function ToList(v: Value): seq<Value> {
    if v.Arr? then v.elems else [v]
  }

  /** lodash `_.entries(v)`: the properties of an object in order, the
      index/element pairs of an array or of a string's characters, and
      nothing for other values. */
  function Entries(v: Value): seq<Entry> {
    match v
    case Obj(es) => es
    case Arr(xs) => seq(|xs|, i requires 0 <= i < |xs| => Entry(DecimalText(i), xs[i]))
    case Str(s) => seq(|s|, i requires 0 <= i < |s| => Entry(DecimalText(i), Str([s[i]])))
    case _ => []
  }
}
