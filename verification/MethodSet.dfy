/** Sets of HTTP methods: the nine standard ones and custom names. */
module MethodSets {
  import opened Prelude

  datatype Method = GET | POST | PUT | DELETE | PATCH | HEAD | OPTIONS | TRACE | CONNECT

  /** What a request carries: a standard method or some other name. */
  datatype Request = Standard(m: Method) | Custom(name: bytes)

  const ALL: set<Method> := {GET, POST, PUT, DELETE, PATCH, HEAD, OPTIONS, TRACE, CONNECT}

  datatype MethodSet = MethodSet(standard: set<Method>, custom: seq<bytes>) {

    /** Every standard method and no custom name listed: stands for every method there is. */
    predicate IsAny() {
      standard == ALL && custom == []
    }

    predicate IsEmpty() {
      standard == {} && custom == []
    }

    predicate Contains(r: Request) {
      match r case Standard(m) => m in standard case Custom(name) => name in custom
    }

    predicate Accepts(r: Request) {
      IsAny() || Contains(r)
    }

    function Without(other: MethodSet): MethodSet {
      if other.IsAny() then MethodSet({}, [])
      else MethodSet(standard - other.standard, Minus(custom, other.custom))
    }

    predicate Intersects(other: MethodSet) {
      if IsEmpty() || other.IsEmpty() then false
      else if IsAny() || other.IsAny() then true
      else standard * other.standard != {} || exists i | 0 <= i < |custom| :: custom[i] in other.custom
    }
  }

  function Minus(a: seq<bytes>, b: seq<bytes>): (r: seq<bytes>)
    ensures forall x :: x in r <==> x in a && x !in b
  {
    if a == [] then [] else (if a[0] in b then [] else [a[0]]) + Minus(a[1..], b)
  }

  lemma {:induction false} AllMethods(m: Method)
    ensures m in ALL
  {
  }

  /** On the standard methods, removal is exact set difference. */
  lemma {:induction false} WithoutIsExact(a: MethodSet, b: MethodSet, m: Method)
    ensures a.Without(b).Accepts(Standard(m)) <==> a.Accepts(Standard(m)) && !b.Accepts(Standard(m))
    ensures a.Without(b).standard == a.standard - b.standard
  {
    AllMethods(m);
    if b.IsAny() {
      forall x | x in a.standard ensures x in b.standard { AllMethods(x); }
    }
  }

  /**
   Removal loses or invents custom methods: the set that is left lists none although some should
   stay, or lists any.
   */
  ghost predicate CustomSafe(a: MethodSet, b: MethodSet) {
    || b.IsAny()
    || (if a.IsAny() then b.IsEmpty()
        else b.standard == {} ==> !(a.standard == ALL && forall x :: x in a.custom ==> x in b.custom))
  }

  /** Taking GET out of "any method" takes every custom method out with it. */
  lemma {:induction false} WithoutCustomExample(name: bytes)
    ensures var any, get := MethodSet(ALL, []), MethodSet({GET}, []);
            && any.Accepts(Custom(name)) && !get.Accepts(Custom(name))
            && !any.Without(get).Accepts(Custom(name))
  {
    var any, get := MethodSet(ALL, []), MethodSet({GET}, []);
    AllMethods(POST);
    assert POST !in get.standard;
    AllMethods(GET);
    assert GET !in any.Without(get).standard;
  }

  /** On the custom methods, removal is exact set difference in exactly these cases. */
  lemma {:induction false} WithoutCustomIff(a: MethodSet, b: MethodSet)
    ensures (forall name :: a.Without(b).Accepts(Custom(name)) <==> a.Accepts(Custom(name)) && !b.Accepts(Custom(name)))
            <==> CustomSafe(a, b)
  {
    if !b.IsAny() {
      var left := a.Without(b);
      var other := Unlisted(b.custom + a.custom);
      if a.IsAny() {
        assert a.Accepts(Custom(other)) && !b.Accepts(Custom(other));
        if b.standard == {} && b.custom == [] {
          assert left.IsAny();
        } else if b.standard == {} {
          assert left.IsAny();
          assert left.Accepts(Custom(b.custom[0])) && b.Accepts(Custom(b.custom[0]));
        } else {
          var m :| m in b.standard;
          AllMethods(m);
          assert m !in left.standard;
          assert !left.Accepts(Custom(other));
        }
      } else if b.standard == {} && a.standard == ALL && (forall x :: x in a.custom ==> x in b.custom) {
        NoneLeft(a.custom, b.custom);
        assert left.IsAny();
        assert left.Accepts(Custom(other)) && !a.Accepts(Custom(other));
      } else {
        assert !left.IsAny() by {
          if b.standard != {} {
            var m :| m in b.standard;
            AllMethods(m);
            assert m !in left.standard;
          } else if a.standard == ALL {
            var x :| x in a.custom && x !in b.custom;
            assert x in left.custom;
          } else {
            assert left.standard == a.standard;
          }
        }
      }
    }
  }

  lemma {:induction false} NoneLeft(a: seq<bytes>, b: seq<bytes>)
    requires forall x :: x in a ==> x in b
    ensures Minus(a, b) == []
  {
    if a != [] {
      assert a[0] in a;
      assert forall x :: x in a[1..] ==> x in a;
      NoneLeft(a[1..], b);
    }
  }

  ghost function LongerThanAll(names: seq<bytes>): (n: nat)
    ensures forall x :: x in names ==> |x| < n
  {
    if names == [] then 0
    else
      var n := LongerThanAll(names[1..]);
      if |names[0]| < n then n else |names[0]| + 1
  }

  ghost function Unlisted(names: seq<bytes>): (name: bytes)
    ensures name !in names
  {
    seq(LongerThanAll(names), _ => 0)
  }

  /** Two sets intersect exactly when some request is accepted by both. */
  lemma {:induction false} IntersectsIsExact(a: MethodSet, b: MethodSet)
    ensures a.Intersects(b) <==> exists r :: a.Accepts(r) && b.Accepts(r)
  {
    if a.Intersects(b) {
      if a.IsAny() || b.IsAny() {
        var s := if a.IsAny() then b else a;
        if s.standard != {} {
          var m :| m in s.standard;
          AllMethods(m);
          assert a.Accepts(Standard(m)) && b.Accepts(Standard(m));
        } else {
          assert a.Accepts(Custom(s.custom[0])) && b.Accepts(Custom(s.custom[0]));
        }
      } else if a.standard * b.standard != {} {
        var m :| m in a.standard * b.standard;
        assert a.Accepts(Standard(m)) && b.Accepts(Standard(m));
      } else {
        var i :| 0 <= i < |a.custom| && a.custom[i] in b.custom;
        assert a.Accepts(Custom(a.custom[i])) && b.Accepts(Custom(a.custom[i]));
      }
    }
    if exists r :: a.Accepts(r) && b.Accepts(r) {
      var r :| a.Accepts(r) && b.Accepts(r);
      if !a.IsAny() && !b.IsAny() {
        match r
        case Standard(m) => assert m in a.standard * b.standard;
        case Custom(name) =>
          var i :| 0 <= i < |a.custom| && a.custom[i] == name;
      }
    }
  }
}
