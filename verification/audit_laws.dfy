/**
 * The laws asked of the primitives can be met together: one set of primitives that meets them. Its text form is
 * not JSON but has the two properties the laws name: an object is one line that opens with a brace, and it reads
 * back behind whitespace only.
 */
module AuditLaws {
  import opened Text
  import opened AuditChain
  import opened AuditWriter

  // ---- A text form in which nothing is a prefix of anything else ----

  function Unary(n: nat): string {
    if n == 0 then "0" else "1" + Unary(n - 1)
  }

  function Magnitude(n: int): nat {
    if n >= 0 then n else -n
  }

  function Signed(n: int): string {
    Unary(if n >= 0 then 1 else 0) + Unary(Magnitude(n))
  }

  function Chars(s: string): string {
    if s == "" then "" else Unary(s[0] as int) + Chars(s[1..])
  }

  function TextForm(s: string): string {
    Unary(|s|) + Chars(s)
  }

  function FieldForm(f: Field): string {
    match f
    case ChainVersion => Unary(0)
    case Seq => Unary(1)
    case PrevHash => Unary(2)
    case ThisHash => Unary(3)
    case Sig => Unary(4)
    case Other(name) => Unary(5) + TextForm(name)
  }

  ghost function KeysOf(s: set<Field>): (ks: seq<Field>)
    ensures forall k :: k in ks <==> k in s
    decreases |s|
  {
    if s == {} then []
    else
      var k :| k in s;
      [k] + KeysOf(s - {k})
  }

  ghost function ValueForm(v: Value): string
    decreases v, 1
  {
    match v
    case Null => Unary(0)
    case Bool(b) => Unary(1) + Unary(if b then 1 else 0)
    case Num(n) => Unary(2) + Signed(n)
    case Str(s) => Unary(3) + TextForm(s)
    case Arr(items) => Unary(4) + (Unary(|items|) + Items(items))
    case Obj(fields) => Unary(5) + (Unary(|KeysOf(fields.Keys)|) + Pairs(v, KeysOf(fields.Keys)))
  }

  ghost function Items(items: seq<Value>): string
    decreases items, 0
  {
    if items == [] then "" else ValueForm(items[0]) + Items(items[1..])
  }

  ghost function Pairs(v: Value, ks: seq<Field>): string
    requires v.Obj? && forall k :: k in ks ==> k in v.fields
    decreases v, 0, |ks|
  {
    if ks == [] then "" else FieldForm(ks[0]) + (ValueForm(v.fields[ks[0]]) + Pairs(v, ks[1..]))
  }

  // ---- Texts that start the same are the same ----

  lemma {:induction false} UnaryFree(m: nat, n: nat, a: string, b: string)
    requires Unary(m) + a == Unary(n) + b
    ensures m == n && a == b
  {
    var s, t := Unary(m) + a, Unary(n) + b;
    assert s[0] == t[0];
    if m == 0 {
      assert s[1..] == a && t[1..] == b;
    } else {
      assert s[1..] == Unary(m - 1) + a && t[1..] == Unary(n - 1) + b;
      UnaryFree(m - 1, n - 1, a, b);
    }
  }

  lemma Regroup(x: string, y: string, z: string)
    ensures (x + y) + z == x + (y + z)
  {
  }

  lemma {:induction false} CharsFree(s: string, t: string, a: string, b: string)
    requires |s| == |t| && Chars(s) + a == Chars(t) + b
    ensures s == t && a == b
    decreases |s|
  {
    if s != "" {
      Regroup(Unary(s[0] as int), Chars(s[1..]), a);
      Regroup(Unary(t[0] as int), Chars(t[1..]), b);
      UnaryFree(s[0] as int, t[0] as int, Chars(s[1..]) + a, Chars(t[1..]) + b);
      CharsFree(s[1..], t[1..], a, b);
      assert s == [s[0]] + s[1..] && t == [t[0]] + t[1..];
    } else {
      assert Chars(s) + a == a && Chars(t) + b == b;
    }
  }

  lemma {:induction false} TextFree(s: string, t: string, a: string, b: string)
    requires TextForm(s) + a == TextForm(t) + b
    ensures s == t && a == b
  {
    Regroup(Unary(|s|), Chars(s), a);
    Regroup(Unary(|t|), Chars(t), b);
    UnaryFree(|s|, |t|, Chars(s) + a, Chars(t) + b);
    CharsFree(s, t, a, b);
  }

  lemma {:induction false} SignedFree(m: int, n: int, a: string, b: string)
    requires Signed(m) + a == Signed(n) + b
    ensures m == n && a == b
  {
    var i, j := if m >= 0 then 1 else 0, if n >= 0 then 1 else 0;
    Regroup(Unary(i), Unary(Magnitude(m)), a);
    Regroup(Unary(j), Unary(Magnitude(n)), b);
    UnaryFree(i, j, Unary(Magnitude(m)) + a, Unary(Magnitude(n)) + b);
    UnaryFree(Magnitude(m), Magnitude(n), a, b);
  }

  function FieldTag(f: Field): nat {
    match f
    case ChainVersion => 0
    case Seq => 1
    case PrevHash => 2
    case ThisHash => 3
    case Sig => 4
    case Other(_) => 5
  }

  function FieldRest(f: Field): string {
    if f.Other? then TextForm(f.name) else ""
  }

  lemma {:induction false} FieldFree(f: Field, g: Field, a: string, b: string)
    requires FieldForm(f) + a == FieldForm(g) + b
    ensures f == g && a == b
  {
    FieldSplit(f, a);
    FieldSplit(g, b);
    UnaryFree(FieldTag(f), FieldTag(g), FieldRest(f) + a, FieldRest(g) + b);
    if f.Other? {
      TextFree(f.name, g.name, a, b);
    } else {
      assert FieldRest(f) + a == a && FieldRest(g) + b == b;
    }
  }

  lemma FieldSplit(f: Field, a: string)
    ensures FieldForm(f) + a == Unary(FieldTag(f)) + (FieldRest(f) + a)
  {
    if f.Other? { Regroup(Unary(5), TextForm(f.name), a); } else { assert FieldRest(f) + a == a; }
  }

  function ValueTag(v: Value): nat {
    match v
    case Null => 0
    case Bool(_) => 1
    case Num(_) => 2
    case Str(_) => 3
    case Arr(_) => 4
    case Obj(_) => 5
  }

  ghost function ValueRest(v: Value): string {
    match v
    case Null => ""
    case Bool(b) => Unary(if b then 1 else 0)
    case Num(n) => Signed(n)
    case Str(s) => TextForm(s)
    case Arr(items) => Unary(|items|) + Items(items)
    case Obj(fields) => Unary(|KeysOf(fields.Keys)|) + Pairs(v, KeysOf(fields.Keys))
  }

  lemma {:induction false} ValueSplit(v: Value, a: string)
    ensures ValueForm(v) + a == Unary(ValueTag(v)) + (ValueRest(v) + a)
  {
    if v.Null? { assert ValueRest(v) + a == a; } else { Regroup(Unary(ValueTag(v)), ValueRest(v), a); }
  }

  lemma {:induction false} ValueFree(v: Value, w: Value, a: string, b: string)
    requires ValueForm(v) + a == ValueForm(w) + b
    ensures v == w && a == b
    decreases v, 1
  {
    ValueSplit(v, a);
    ValueSplit(w, b);
    UnaryFree(ValueTag(v), ValueTag(w), ValueRest(v) + a, ValueRest(w) + b);
    match v
    case Null => assert ValueRest(v) + a == a && ValueRest(w) + b == b;
    case Bool(x) => UnaryFree(if x then 1 else 0, if w.b then 1 else 0, a, b);
    case Num(n) => SignedFree(n, w.n, a, b);
    case Str(s) => TextFree(s, w.s, a, b);
    case Arr(items) =>
      CountSplit(|items|, Items(items), a, |w.items|, Items(w.items), b);
      ItemsFree(items, w.items, a, b);
    case Obj(fields) =>
      var ks, ls := KeysOf(fields.Keys), KeysOf(w.fields.Keys);
      CountSplit(|ks|, Pairs(v, ks), a, |ls|, Pairs(w, ls), b);
      PairsFree(v, ks, w, ls, a, b);
      assert fields == w.fields;
  }

  lemma {:induction false} CountSplit(m: nat, x: string, a: string, n: nat, y: string, b: string)
    requires (Unary(m) + x) + a == (Unary(n) + y) + b
    ensures m == n && x + a == y + b
  {
    Regroup(Unary(m), x, a);
    Regroup(Unary(n), y, b);
    UnaryFree(m, n, x + a, y + b);
  }

  lemma {:induction false} ItemsFree(v: seq<Value>, w: seq<Value>, a: string, b: string)
    requires |v| == |w| && Items(v) + a == Items(w) + b
    ensures v == w && a == b
    decreases v, 0
  {
    if v == [] {
      assert Items(v) + a == a && Items(w) + b == b;
    } else {
      Regroup(ValueForm(v[0]), Items(v[1..]), a);
      Regroup(ValueForm(w[0]), Items(w[1..]), b);
      ValueFree(v[0], w[0], Items(v[1..]) + a, Items(w[1..]) + b);
      ItemsFree(v[1..], w[1..], a, b);
      assert v == [v[0]] + v[1..] && w == [w[0]] + w[1..];
    }
  }

  lemma {:induction false} PairsFree(v: Value, ks: seq<Field>, w: Value, ls: seq<Field>, a: string, b: string)
    requires v.Obj? && w.Obj? && |ks| == |ls|
    requires (forall k :: k in ks ==> k in v.fields) && (forall k :: k in ls ==> k in w.fields)
    requires Pairs(v, ks) + a == Pairs(w, ls) + b
    ensures ks == ls && a == b && forall k :: k in ks ==> v.fields[k] == w.fields[k]
    decreases v, 0, |ks|
  {
    if ks == [] {
      assert Pairs(v, ks) + a == a && Pairs(w, ls) + b == b;
    } else {
      var x, y := ValueForm(v.fields[ks[0]]), ValueForm(w.fields[ls[0]]);
      Regroup(FieldForm(ks[0]), x + Pairs(v, ks[1..]), a);
      Regroup(FieldForm(ls[0]), y + Pairs(w, ls[1..]), b);
      FieldFree(ks[0], ls[0], (x + Pairs(v, ks[1..])) + a, (y + Pairs(w, ls[1..])) + b);
      Regroup(x, Pairs(v, ks[1..]), a);
      Regroup(y, Pairs(w, ls[1..]), b);
      ValueFree(v.fields[ks[0]], w.fields[ls[0]], Pairs(v, ks[1..]) + a, Pairs(w, ls[1..]) + b);
      PairsFree(v, ks[1..], w, ls[1..], a, b);
      assert ks == [ks[0]] + ks[1..] && ls == [ls[0]] + ls[1..];
    }
  }

  // ---- Only ones and zeros ----

  predicate Binary(s: string) {
    forall i :: 0 <= i < |s| ==> s[i] == '0' || s[i] == '1'
  }

  lemma {:induction false} UnaryBinary(n: nat)
    ensures Binary(Unary(n))
  {
    if n > 0 { UnaryBinary(n - 1); }
  }

  lemma {:induction false} TextBinary(s: string)
    ensures Binary(Chars(s)) && Binary(TextForm(s))
  {
    UnaryBinary(|s|);
    if s != "" {
      UnaryBinary(s[0] as int);
      TextBinary(s[1..]);
    }
  }

  lemma {:induction false} FieldBinary(f: Field)
    ensures Binary(FieldForm(f))
  {
    UnaryBinary(FieldTag(f));
    if f.Other? { TextBinary(f.name); }
  }

  lemma {:induction false} ValueBinary(v: Value)
    ensures Binary(ValueForm(v))
    decreases v, 1
  {
    UnaryBinary(ValueTag(v));
    match v
    case Null =>
    case Bool(b) => UnaryBinary(if b then 1 else 0);
    case Num(n) =>
      UnaryBinary(if n >= 0 then 1 else 0);
      UnaryBinary(Magnitude(n));
    case Str(s) => TextBinary(s);
    case Arr(items) =>
      UnaryBinary(|items|);
      ItemsBinary(items);
    case Obj(fields) =>
      UnaryBinary(|KeysOf(fields.Keys)|);
      PairsBinary(v, KeysOf(fields.Keys));
  }

  lemma {:induction false} ItemsBinary(items: seq<Value>)
    ensures Binary(Items(items))
    decreases items, 0
  {
    if items != [] {
      ValueBinary(items[0]);
      ItemsBinary(items[1..]);
    }
  }

  lemma {:induction false} PairsBinary(v: Value, ks: seq<Field>)
    requires v.Obj? && forall k :: k in ks ==> k in v.fields
    ensures Binary(Pairs(v, ks))
    decreases v, 0, |ks|
  {
    if ks != [] {
      FieldBinary(ks[0]);
      ValueBinary(v.fields[ks[0]]);
      PairsBinary(v, ks[1..]);
    }
  }

  // ---- The primitives ----

  ghost function Canon(v: Value): string {
    "{" + ValueForm(v)
  }

  /** The object behind whitespace, if the text is that. */
  ghost predicate Reads(s: string, p: string, b: Body) {
    JsonBlank(p) && s == p + Canon(Obj(b))
  }

  ghost function Parse(s: string): Option<Value> {
    if exists p: string, b: Body :: Reads(s, p, b) then
      var p: string, b: Body :| Reads(s, p, b);
      Some(Obj(b))
    else None
  }

  lemma {:induction false} BraceSplits(p: string, x: string, q: string, y: string)
    requires p + ("{" + x) == q + ("{" + y) && Binary(x) && Binary(y)
    ensures p == q && x == y
  {
    var s, t := p + ("{" + x), q + ("{" + y);
    assert s[|p|] == '{' && t[|q|] == '{';
    assert forall i :: |p| < i < |s| ==> s[i] == x[i - |p| - 1];
    assert forall i :: |q| < i < |t| ==> t[i] == y[i - |q| - 1];
    assert s[..|p|] == p && t[..|p|] == q;
    assert s[|p| + 1..] == x && t[|p| + 1..] == y;
  }

  lemma {:induction false} SameReading(p: string, b: Body, q: string, c: Body)
    requires p + Canon(Obj(b)) == q + Canon(Obj(c))
    ensures p == q && b == c
  {
    ValueBinary(Obj(b));
    ValueBinary(Obj(c));
    BraceSplits(p, ValueForm(Obj(b)), q, ValueForm(Obj(c)));
    assert ValueForm(Obj(b)) + "" == ValueForm(Obj(c)) + "";
    ValueFree(Obj(b), Obj(c), "", "");
  }

  lemma {:induction false} ParsesBack(p: string, b: Body)
    ensures Parse(p + Canon(Obj(b))) == if JsonBlank(p) then Some(Obj(b)) else None
  {
    var s := p + Canon(Obj(b));
    if JsonBlank(p) { assert Reads(s, p, b); }
    forall q: string, c: Body | Reads(s, q, c) ensures p == q && b == c {
      SameReading(p, b, q, c);
    }
  }

  lemma CanonIsOneLine(b: Body)
    ensures OneLine(Canon(Obj(b)))
  {
    ValueBinary(Obj(b));
  }

  function Digest(x: seq<int>): seq<Byte> {
    seq(32, i => 0)
  }

  function Sign(h: seq<Byte>): string { "" }

  predicate Verifies(h: seq<Byte>, s: string) { true }

  /** There are primitives that meet every law. */
  lemma {:induction false} LawsCanBeMet() returns (c: Crypto)
    ensures Laws(c)
  {
    c := Crypto(32, s => Parse(s), v => Canon(v), Digest, Sign, Verifies);
    forall b: Body ensures OneLine(c.canon(Obj(b))) {
      CanonIsOneLine(b);
    }
    forall p: string, b: Body ensures c.parse(p + c.canon(Obj(b))) == if JsonBlank(p) then Some(Obj(b)) else None {
      ParsesBack(p, b);
    }
  }
}
