/**
 A fragment of the Common Expression Language over decoded documents, with errors
 as results. `&&` and `||` absorb an error when the other side decides the result
 (section "Logical Operators" of the CEL language definition).
 */
module Cel {
  import opened Values

  datatype UnaryOp =
    | SelectKey(key: string)  // e.key and e["key"]
    | ElemAt(index: int)      // e[i]
    | Not                     // !e
    | HasKey(key: string)     // has(e.key)
    | Size                    // size(e)

  datatype BinaryOp = Eq | Lt | StartsWith | In

  datatype Expr =
    | Lit(v: Value)
    | ObjectVar
    | Unary(u: UnaryOp, e: Expr)
    | Binary(op: BinaryOp, l: Expr, r: Expr)
    | And(l: Expr, r: Expr)
    | Or(l: Expr, r: Expr)
    | Cond(c: Expr, l: Expr, r: Expr)

  /** A value, the "no such key" error, or any other error. */
  datatype Outcome = Val(v: Value) | NoSuchKey | OtherError {
    predicate Is(b: bool) {
      this == Val(Bool(b))
    }

    /** The error a logical operator reports for an operand that is not a boolean. */
    function AsError(): Outcome {
      if Val? then OtherError else this
    }
  }

  function Eval(e: Expr, doc: Value): Outcome {
    match e
    case Lit(v) => Val(v)
    case ObjectVar => Val(doc)
    case Unary(u, e') =>
      var a := Eval(e', doc);
      if a.Val? then Apply1(u, a.v) else a
    case Binary(op, l, r) =>
      var a, b := Eval(l, doc), Eval(r, doc);
      if !a.Val? then a else if !b.Val? then b else Apply2(op, a.v, b.v)
    case And(l, r) => Decide(false, Eval(l, doc), Eval(r, doc))
    case Or(l, r) => Decide(true, Eval(l, doc), Eval(r, doc))
    case Cond(c, l, r) =>
      var b := Eval(c, doc);
      if b.Is(true) then Eval(l, doc) else if b.Is(false) then Eval(r, doc) else b.AsError()
  }

  /** `||` decides on `true` and `&&` on `false`; otherwise the first odd operand reports. */
  function Decide(on: bool, a: Outcome, b: Outcome): Outcome {
    if a.Is(on) || b.Is(on) then Val(Bool(on))
    else if !a.Is(!on) then a.AsError()
    else if !b.Is(!on) then b.AsError()
    else Val(Bool(!on))
  }

  function Apply1(u: UnaryOp, v: Value): Outcome {
    match u
    case SelectKey(k) =>
      if v.Map? && k in v.fields then Val(v.fields[k]) else if v.List? then OtherError else NoSuchKey
    case ElemAt(i) =>
      if v.List? && 0 <= i < |v.items| then Val(v.items[i]) else if v.List? then OtherError else NoSuchKey
    case Not => if v.Bool? then Val(Bool(!v.b)) else OtherError
    case HasKey(k) =>
      if v.Map? then Val(Bool(k in v.fields)) else if v.List? then OtherError else NoSuchKey
    case Size =>
      match v
      case Map(m) => Val(Num(|m|))
      case List(items) => Val(Num(|items|))
      case Str(s) => Val(Num(|s|))
      case _ => OtherError
  }

  function Apply2(op: BinaryOp, a: Value, b: Value): Outcome {
    match op
    case Eq => Val(Bool(a == b))
    case Lt =>
      if a.Num? && b.Num? then Val(Bool(a.n < b.n))
      else if a.Bool? && b.Bool? then Val(Bool(!a.b && b.b))
      else if a.Str? && b.Str? then Val(Bool(StrLess(a.s, b.s)))
      else OtherError
    case StartsWith => if a.Str? && b.Str? then Val(Bool(b.s <= a.s)) else OtherError
    case In =>
      if b.List? then Val(Bool(a in b.items))
      else if b.Map? then Val(Bool(a.Str? && a.s in b.fields))
      else OtherError
  }

  function StrLess(a: string, b: string): bool {
    if a == "" || b == "" then b != "" && a == ""
    else if a[0] == b[0] then StrLess(a[1..], b[1..])
    else a[0] < b[0]
  }

  // ----- What the operators mean -----

  /** Strings are ordered as in a dictionary, by code: a proper prefix comes first, else the first difference decides. */
  lemma {:induction false} StrLessIff(a: string, b: string)
    ensures StrLess(a, b) <==> exists n :: 0 <= n <= |a| && DiffersAt(a, b, n)
  {
    if a == "" || b == "" {
      assert StrLess(a, b) ==> DiffersAt(a, b, 0);
    } else {
      StrLessIff(a[1..], b[1..]);
      if a[0] == b[0] {
        forall n | 0 <= n <= |a| ensures DiffersAt(a, b, n) <==> n > 0 && DiffersAt(a[1..], b[1..], n - 1) {
          DiffersFurther(a, b, n);
        }
        if n :| 0 <= n < |a| && DiffersAt(a[1..], b[1..], n) { assert DiffersAt(a, b, n + 1); }
      } else {
        assert a[0] < b[0] ==> DiffersAt(a, b, 0);
        assert forall n :: 0 < n <= |a| && n <= |b| ==> a[..n][0] == a[0] && b[..n][0] == b[0];
      }
    }
  }

  /** The strings agree on their first `n` characters, and there `a` ends or has the smaller one. */
  predicate DiffersAt(a: string, b: string, n: nat)
    requires n <= |a|
  {
    n < |b| && a[..n] == b[..n] && (n < |a| ==> a[n] < b[n])
  }

  lemma DiffersFurther(a: string, b: string, n: nat)
    requires a != "" && b != "" && a[0] == b[0] && n <= |a|
    ensures DiffersAt(a, b, n) <==> n > 0 && DiffersAt(a[1..], b[1..], n - 1)
  {
    if 0 < n <= |b| {
      var x, y := a[1..][..n - 1], b[1..][..n - 1];
      assert a[..n] == [a[0]] + x && b[..n] == [b[0]] + y;
      assert a[..n][1..] == x && b[..n][1..] == y;
      assert n < |b| ==> b[1..][n - 1] == b[n];
      assert n < |a| ==> a[1..][n - 1] == a[n];
    }
  }

  function Same(l: Expr, r: Expr): Expr { Binary(Eq, l, r) }

  function Less(l: Expr, r: Expr): Expr { Binary(Lt, l, r) }

  /** Two values can be compared exactly when both are numbers, both booleans or both strings. */
  predicate Comparable(a: Value, b: Value) {
    (a.Num? && b.Num?) || (a.Bool? && b.Bool?) || (a.Str? && b.Str?)
  }

  lemma {:induction false} OneComesFirst(a: string, b: string)
    ensures a == b ==> !StrLess(a, b)
    ensures a != b ==> (StrLess(a, b) <==> !StrLess(b, a))
  {
    if a != "" && b != "" {
      OneComesFirst(a[1..], b[1..]);
      assert a == [a[0]] + a[1..] && b == [b[0]] + b[1..];
    }
  }

  /** Of two comparable answers exactly one of `l < r`, `l == r` and `r < l` holds; others are not ordered. */
  lemma {:induction false} OrderIsTotal(l: Expr, r: Expr, doc: Value)
    requires Eval(l, doc).Val? && Eval(r, doc).Val?
    ensures
      var below, same, above := Eval(Less(l, r), doc), Eval(Same(l, r), doc), Eval(Less(r, l), doc);
      if Comparable(Eval(l, doc).v, Eval(r, doc).v) then ExactlyOne(below, same, above)
      else below == OtherError && above == OtherError
  {
    var a, b := Eval(l, doc).v, Eval(r, doc).v;
    if Comparable(a, b) { ValuesAreOrdered(a, b); } else { OthersAreNot(a, b); }
    EvalBinary(Lt, l, r, doc);
    EvalBinary(Eq, l, r, doc);
    EvalBinary(Lt, r, l, doc);
  }

  lemma {:induction false} EvalBinary(op: BinaryOp, l: Expr, r: Expr, doc: Value)
    requires Eval(l, doc).Val? && Eval(r, doc).Val?
    ensures Eval(Binary(op, l, r), doc) == Apply2(op, Eval(l, doc).v, Eval(r, doc).v)
  {
  }

  lemma {:induction false} OthersAreNot(a: Value, b: Value)
    requires !Comparable(a, b)
    ensures Apply2(Lt, a, b) == OtherError && Apply2(Lt, b, a) == OtherError
  {
  }

  predicate ExactlyOne(a: Outcome, b: Outcome, c: Outcome) {
    || (a.Is(true) && b.Is(false) && c.Is(false))
    || (a.Is(false) && b.Is(true) && c.Is(false))
    || (a.Is(false) && b.Is(false) && c.Is(true))
  }

  lemma {:induction false} ValuesAreOrdered(a: Value, b: Value)
    requires Comparable(a, b)
    ensures ExactlyOne(Apply2(Lt, a, b), Apply2(Eq, a, b), Apply2(Lt, b, a))
    ensures a.Num? ==> (Apply2(Lt, a, b).Is(true) <==> a.n < b.n)
    ensures a.Bool? ==> (Apply2(Lt, a, b).Is(true) <==> b.b && !a.b)
  {
    if a.Str? { OneComesFirst(a.s, b.s); }
  }

  /** A string starts with another exactly when it is that one continued. */
  lemma {:induction false} StartsWithIff(a: string, b: string)
    ensures Apply2(StartsWith, Str(a), Str(b)).Is(true) <==> exists rest :: a == b + rest
    ensures Apply2(StartsWith, Str(a), Str(b)).Is(false) <==> !exists rest :: a == b + rest
  {
    if b <= a { assert a == b + a[|b|..]; }
  }

  /** `||` is true with one true side whatever the other does, false with two false ones, and an error otherwise. */
  lemma {:induction false} OrIff(l: Expr, r: Expr, doc: Value)
    ensures
      var o, a, b := Eval(Or(l, r), doc), Eval(l, doc), Eval(r, doc);
      && (o.Is(true) <==> a.Is(true) || b.Is(true))
      && (o.Is(false) <==> a.Is(false) && b.Is(false))
      && (o.Val? ==> o.v.Bool?)
      && (o == NoSuchKey <==> (a == NoSuchKey && !b.Is(true)) || (b == NoSuchKey && a.Is(false)))
  {
  }

  /** `&&` is `||` with everything negated, errors included. */
  lemma {:induction false} DeMorgan(l: Expr, r: Expr, doc: Value)
    ensures Eval(Unary(Not, And(l, r)), doc) == Eval(Or(Unary(Not, l), Unary(Not, r)), doc)
    ensures Eval(l, doc).Is(true) <==> Eval(Unary(Not, l), doc).Is(false)
    ensures Eval(l, doc).Is(false) <==> Eval(Unary(Not, l), doc).Is(true)
  {
  }

  /** Presence, selection, position, membership and size agree with each other. */
  lemma OperatorsAgree(v: Value, a: Value, k: string)
    ensures Apply1(HasKey(k), v).Is(true) <==> Apply1(SelectKey(k), v).Val?
    ensures Apply1(HasKey(k), v).Is(false) <==> v.Map? && Apply1(SelectKey(k), v) == NoSuchKey
    ensures v.Map? ==> (Apply2(In, Str(k), v).Is(true) <==> Apply1(SelectKey(k), v).Val?)
    ensures v.List? ==> (Apply2(In, a, v).Is(true) <==> exists i :: Apply1(ElemAt(i), v) == Val(a))
    ensures v.List? ==> forall i :: Apply1(ElemAt(i), v).Val? <==> 0 <= i && Apply2(Lt, Num(i), Apply1(Size, v).v).Is(true)
  {
    if v.List? && a in v.items {
      var i :| 0 <= i < |v.items| && v.items[i] == a;
      assert Apply1(ElemAt(i), v) == Val(a);
    }
  }

  // ----- Information order -----

  /** `p` is a sub-document of `d`, leaving aside some keys: maps may miss keys, everything else is whole. */
  ghost predicate SubBut(p: Value, d: Value, skip: set<string>) {
    match p
    case Map(m) => d.Map? && forall k :: k in m && k !in skip ==> k in d.fields && SubBut(m[k], d.fields[k], skip)
    case _ => p == d
  }

  ghost predicate Sub(p: Value, d: Value) {
    SubBut(p, d, {})
  }

  lemma {:induction false} SubReflexive(v: Value, skip: set<string>)
    ensures SubBut(v, v, skip)
    decreases v
  {
    match v {
      case Map(m) => forall k | k in m ensures SubBut(m[k], m[k], skip) { SubReflexive(m[k], skip); }
      case _ =>
    }
  }

  /** What a result says stays true when the document gains keys. */
  ghost predicate Refines(o: Outcome, o': Outcome, skip: set<string>) {
    o.Val? ==> o'.Val? && SubBut(o.v, o'.v, skip)
  }

  /** The expression does not ask for these keys; a membership test may ask for any key. */
  predicate Avoids(e: Expr, skip: set<string>) {
    match e
    case Lit(_) => true
    case ObjectVar => true
    case Unary(u, e') => AvoidsKey(u, skip) && Avoids(e', skip)
    case Binary(op, l, r) => (op == In ==> skip == {}) && Avoids(l, skip) && Avoids(r, skip)
    case And(l, r) => Avoids(l, skip) && Avoids(r, skip)
    case Or(l, r) => Avoids(l, skip) && Avoids(r, skip)
    case Cond(c, l, r) => Avoids(c, skip) && Avoids(l, skip) && Avoids(r, skip)
  }

  predicate AvoidsKey(u: UnaryOp, skip: set<string>) {
    match u
    case SelectKey(k) => k !in skip
    case HasKey(k) => k !in skip
    case _ => true
  }

  lemma {:induction false} AvoidsNothing(e: Expr)
    ensures Avoids(e, {})
    decreases e
  {
    match e {
      case Lit(_) =>
      case ObjectVar =>
      case Unary(_, e') => AvoidsNothing(e');
      case Binary(_, l, r) => AvoidsNothing(l); AvoidsNothing(r);
      case And(l, r) => AvoidsNothing(l); AvoidsNothing(r);
      case Or(l, r) => AvoidsNothing(l); AvoidsNothing(r);
      case Cond(c, l, r) => AvoidsNothing(c); AvoidsNothing(l); AvoidsNothing(r);
    }
  }

  /** A presence test that answers true and a size of something other than a map cannot change. */
  predicate Stable1(u: UnaryOp, v: Value) {
    match u
    case HasKey(k) => v.Map? ==> k in v.fields
    case Size => !v.Map?
    case _ => true
  }

  /** No two maps are compared whole, no map is looked up in a list, `in` on a map answers true. */
  predicate Stable2(op: BinaryOp, a: Value, b: Value) {
    match op
    case Eq => !(a.Map? && b.Map?)
    case In => if b.List? then !a.Map? else b.Map? ==> a.Str? && a.s in b.fields
    case _ => true
  }

  /** Every operator that could lose its answer when keys appear is applied on its stable side. */
  ghost predicate Reliable(e: Expr, doc: Value) {
    match e
    case Lit(_) => true
    case ObjectVar => true
    case Unary(u, e') => Reliable(e', doc) && (Eval(e', doc).Val? ==> Stable1(u, Eval(e', doc).v))
    case Binary(op, l, r) =>
      Reliable(l, doc) && Reliable(r, doc)
      && (Eval(l, doc).Val? && Eval(r, doc).Val? ==> Stable2(op, Eval(l, doc).v, Eval(r, doc).v))
    case And(l, r) => Reliable(l, doc) && Reliable(r, doc)
    case Or(l, r) => Reliable(l, doc) && Reliable(r, doc)
    case Cond(c, l, r) => Reliable(c, doc) && Reliable(l, doc) && Reliable(r, doc)
  }

  lemma {:induction false} Apply1Monotone(u: UnaryOp, v: Value, v': Value, skip: set<string>)
    requires SubBut(v, v', skip) && Stable1(u, v) && AvoidsKey(u, skip)
    ensures Refines(Apply1(u, v), Apply1(u, v'), skip)
    ensures Apply1(u, v) == OtherError ==> Apply1(u, v') == OtherError
  {
    if u.ElemAt? && Apply1(u, v).Val? {
      SubReflexive(Apply1(u, v).v, skip);
    }
  }

  lemma {:induction false} Apply2Monotone(op: BinaryOp, a: Value, b: Value, a': Value, b': Value, skip: set<string>)
    requires SubBut(a, a', skip) && SubBut(b, b', skip) && Stable2(op, a, b) && (op == In ==> skip == {})
    ensures Refines(Apply2(op, a, b), Apply2(op, a', b'), skip)
    ensures Apply2(op, a, b) == OtherError ==> Apply2(op, a', b') == OtherError
  {
  }

  /**
   Evaluation is monotone: an answer on a sub-document is an answer on the document, and
   keys the expression does not ask for play no part.
   */
  lemma {:induction false} EvalMonotone(e: Expr, p: Value, d: Value, skip: set<string>)
    requires SubBut(p, d, skip) && Reliable(e, p) && Avoids(e, skip)
    ensures Refines(Eval(e, p), Eval(e, d), skip)
    decreases e
  {
    match e {
      case Lit(v) => SubReflexive(v, skip);
      case ObjectVar =>
      case Unary(u, e') =>
        EvalMonotone(e', p, d, skip);
        if Eval(e', p).Val? { Apply1Monotone(u, Eval(e', p).v, Eval(e', d).v, skip); }
      case Binary(op, l, r) =>
        EvalMonotone(l, p, d, skip);
        EvalMonotone(r, p, d, skip);
        if Eval(l, p).Val? && Eval(r, p).Val? {
          Apply2Monotone(op, Eval(l, p).v, Eval(r, p).v, Eval(l, d).v, Eval(r, d).v, skip);
        }
      case And(l, r) => EvalMonotone(l, p, d, skip); EvalMonotone(r, p, d, skip);
      case Or(l, r) => EvalMonotone(l, p, d, skip); EvalMonotone(r, p, d, skip);
      case Cond(c, l, r) => EvalMonotone(c, p, d, skip); EvalMonotone(l, p, d, skip); EvalMonotone(r, p, d, skip);
    }
  }

  /** Expressions without the error-absorbing operators. */
  predicate NoLogic(e: Expr) {
    match e
    case Lit(_) => true
    case ObjectVar => true
    case Unary(_, e') => NoLogic(e')
    case Binary(_, l, r) => NoLogic(l) && NoLogic(r)
    case And(_, _) => false
    case Or(_, _) => false
    case Cond(c, l, r) => NoLogic(c) && NoLogic(l) && NoLogic(r)
  }

  /** No operand of `&&` or `||` that is evaluated misses a key. */
  ghost predicate Settled(e: Expr, doc: Value) {
    match e
    case Lit(_) => true
    case ObjectVar => true
    case Unary(_, e') => Settled(e', doc)
    case Binary(_, l, r) => Settled(l, doc) && Settled(r, doc)
    case And(l, r) => Settled(l, doc) && Settled(r, doc) && NoneMissing(l, r, doc)
    case Or(l, r) => Settled(l, doc) && Settled(r, doc) && NoneMissing(l, r, doc)
    case Cond(c, l, r) =>
      Settled(c, doc) && (Eval(c, doc).Is(true) ==> Settled(l, doc)) && (Eval(c, doc).Is(false) ==> Settled(r, doc))
  }

  predicate NoneMissing(l: Expr, r: Expr, doc: Value) {
    Eval(l, doc) != NoSuchKey && Eval(r, doc) != NoSuchKey
  }

  lemma {:induction false} NoLogicIsSettled(e: Expr, doc: Value)
    requires NoLogic(e)
    ensures Settled(e, doc)
    decreases e
  {
    match e {
      case Lit(_) =>
      case ObjectVar =>
      case Unary(_, e') => NoLogicIsSettled(e', doc);
      case Binary(_, l, r) => NoLogicIsSettled(l, doc); NoLogicIsSettled(r, doc);
      case Cond(c, l, r) => NoLogicIsSettled(c, doc); NoLogicIsSettled(l, doc); NoLogicIsSettled(r, doc);
    }
  }

  /** Where no logical operator hides a missing key, an error other than a missing key stays an error. */
  lemma {:induction false} OtherErrorsPersist(e: Expr, p: Value, d: Value, skip: set<string>)
    requires SubBut(p, d, skip) && Reliable(e, p) && Avoids(e, skip) && Settled(e, p) && Eval(e, p) == OtherError
    ensures Eval(e, d) == OtherError
    decreases e
  {
    match e {
      case Unary(u, e') =>
        if Eval(e', p).Val? {
          EvalMonotone(e', p, d, skip);
          Apply1Monotone(u, Eval(e', p).v, Eval(e', d).v, skip);
        } else {
          OtherErrorsPersist(e', p, d, skip);
        }
      case Binary(op, l, r) =>
        if !Eval(l, p).Val? {
          OtherErrorsPersist(l, p, d, skip);
        } else {
          EvalMonotone(l, p, d, skip);
          if !Eval(r, p).Val? {
            OtherErrorsPersist(r, p, d, skip);
          } else {
            EvalMonotone(r, p, d, skip);
            Apply2Monotone(op, Eval(l, p).v, Eval(r, p).v, Eval(l, d).v, Eval(r, d).v, skip);
          }
        }
      case And(l, r) =>
        EvalMonotone(l, p, d, skip);
        EvalMonotone(r, p, d, skip);
        if Eval(l, p) == OtherError { OtherErrorsPersist(l, p, d, skip); }
        if Eval(r, p) == OtherError { OtherErrorsPersist(r, p, d, skip); }
      case Or(l, r) =>
        EvalMonotone(l, p, d, skip);
        EvalMonotone(r, p, d, skip);
        if Eval(l, p) == OtherError { OtherErrorsPersist(l, p, d, skip); }
        if Eval(r, p) == OtherError { OtherErrorsPersist(r, p, d, skip); }
      case Cond(c, l, r) =>
        EvalMonotone(c, p, d, skip);
        if Eval(c, p).Is(true) {
          OtherErrorsPersist(l, p, d, skip);
        } else if Eval(c, p).Is(false) {
          OtherErrorsPersist(r, p, d, skip);
        } else if !Eval(c, p).Val? {
          OtherErrorsPersist(c, p, d, skip);
        }
    }
  }

  // ----- Chains of keys -----

  /** e.a1.a2...an */
  function Chain(e: Expr, keys: seq<string>): Expr
    decreases |keys|
  {
    if keys == [] then e else Chain(Unary(SelectKey(keys[0]), e), keys[1..])
  }

  function Follow(a: Outcome, keys: seq<string>): Outcome
    decreases |keys|
  {
    if keys == [] then a else Follow(if a.Val? then Apply1(SelectKey(keys[0]), a.v) else a, keys[1..])
  }

  lemma {:induction false} EvalChain(e: Expr, keys: seq<string>, doc: Value)
    ensures Eval(Chain(e, keys), doc) == Follow(Eval(e, doc), keys)
    decreases |keys|
  {
    if keys != [] { EvalChain(Unary(SelectKey(keys[0]), e), keys[1..], doc); }
  }

  lemma {:induction false} FollowError(a: Outcome, keys: seq<string>)
    requires !a.Val?
    ensures Follow(a, keys) == a
  {
    if keys != [] { FollowError(a, keys[1..]); }
  }

  /** has(object.a1...an.k) */
  function Presence(doc: Value, keys: seq<string>, k: string): Outcome {
    var a := Follow(Val(doc), keys);
    if a.Val? then Apply1(HasKey(k), a.v) else a
  }

  lemma {:induction false} EvalPresence(keys: seq<string>, k: string, doc: Value)
    ensures Eval(Unary(HasKey(k), Chain(ObjectVar, keys)), doc) == Presence(doc, keys, k)
  {
    EvalChain(ObjectVar, keys, doc);
  }

  // ----- A syntactic class of reliable expressions -----

  /**
   No presence tests, no sizes, no membership, and every equality has a side that
   cannot be a map: the query examples of the documentation are of this kind.
   */
  predicate InFragment(e: Expr) {
    match e
    case Lit(_) => ScalarTyped(e)
    case ObjectVar => true
    case Unary(u, e') => !u.HasKey? && !u.Size? && InFragment(e')
    case Binary(op, l, r) =>
      op != In && InFragment(l) && InFragment(r) && (op == Eq ==> ScalarTyped(l) || ScalarTyped(r))
    case And(l, r) => InFragment(l) && InFragment(r)
    case Or(l, r) => InFragment(l) && InFragment(r)
    case Cond(c, l, r) => InFragment(c) && InFragment(l) && InFragment(r)
  }

  predicate ScalarTyped(e: Expr) {
    match e
    case Lit(v) => !v.Map? && !v.List?
    case Unary(u, _) => u.Not?
    case Binary(_, _, _) => true
    case And(_, _) => true
    case Or(_, _) => true
    case _ => false
  }

  lemma {:induction false} FragmentIsReliable(e: Expr, doc: Value)
    requires InFragment(e)
    ensures Reliable(e, doc)
    decreases e
  {
    match e {
      case Lit(_) =>
      case ObjectVar =>
      case Unary(_, e') => FragmentIsReliable(e', doc);
      case Binary(_, l, r) =>
        FragmentIsReliable(l, doc);
        FragmentIsReliable(r, doc);
        assert ScalarTyped(l) && Eval(l, doc).Val? ==> !Eval(l, doc).v.Map?;
        assert ScalarTyped(r) && Eval(r, doc).Val? ==> !Eval(r, doc).v.Map?;
      case And(l, r) => FragmentIsReliable(l, doc); FragmentIsReliable(r, doc);
      case Or(l, r) => FragmentIsReliable(l, doc); FragmentIsReliable(r, doc);
      case Cond(c, l, r) => FragmentIsReliable(c, doc); FragmentIsReliable(l, doc); FragmentIsReliable(r, doc);
    }
  }
}
