/** The parameter list of a match: three places inline, a growable list beyond that. */
module Params {
  import opened Prelude
  import opened Pattern

  const SMALL: nat := 3

  datatype Binding = Binding(key: Name, value: bytes)

  class ParamList {
    var inline: array<Binding>
    var len: nat
    var isLarge: bool
    var vec: seq<Binding>

    ghost predicate Valid()
      reads this
    {
      inline.Length == SMALL && len <= SMALL
    }

    /** The parameters in order. */
    function View(): (s: seq<Binding>)
      requires Valid()
      reads this, inline
      ensures isLarge ==> s == vec
      ensures !isLarge ==> |s| == len && forall i | 0 <= i < len :: s[i] == inline[i]
    {
      if isLarge then vec else inline[..len]
    }

    constructor ()
      ensures Valid() && fresh(inline) && View() == []
    {
      inline := new Binding[SMALL](_ => Binding([], []));
      len := 0;
      isLarge := false;
      vec := [];
    }

    method Len() returns (n: nat)
      requires Valid()
      ensures n == |View()|
    {
      n := if isLarge then |vec| else len;
    }

    method Push(key: Name, value: bytes)
      requires Valid()
      modifies this, inline
      ensures Valid() && inline == old(inline)
      ensures View() == old(View()) + [Binding(key, value)]
    {
      if isLarge {
        vec := vec + [Binding(key, value)];
      } else if len >= SMALL {
        // Spill: every inline place is taken, so all of them move into the list.
        vec := inline[..] + [Binding(key, value)];
        isLarge := true;
      } else {
        inline[len] := Binding(key, value);
        len := len + 1;
      }
    }

    /** Forgets the parameters from `n` on. The inline form only moves its length. */
    method Truncate(n: nat)
      requires Valid() && n <= |View()|
      modifies this
      ensures Valid() && inline == old(inline)
      ensures View() == old(View())[..n]
    {
      if isLarge {
        vec := vec[..n];
      } else {
        len := n;
      }
    }

    /** Gives parameter `i` the `i`-th name of the matched route. */
    method Rename(names: seq<Name>)
      requires Valid() && |View()| <= |names|
      modifies this, inline
      ensures Valid() && inline == old(inline)
      ensures |View()| == |old(View())|
      ensures forall i | 0 <= i < |View()| :: View()[i] == Binding(names[i], old(View()[i].value))
    {
      var i := 0;
      ghost var before := View();
      while i < |View()|
        invariant Valid() && inline == old(inline) && isLarge == old(isLarge) && len == old(len)
        invariant i <= |View()| == |before|
        invariant forall j | 0 <= j < i :: View()[j] == Binding(names[j], before[j].value)
        invariant forall j | i <= j < |before| :: View()[j] == before[j]
        decreases |before| - i
      {
        if isLarge {
          vec := vec[i := Binding(names[i], vec[i].value)];
        } else {
          inline[i] := Binding(names[i], inline[i].value);
        }
        i := i + 1;
      }
    }
  }
}
