/** The style interner of the SVG back end (SvgCssBuilder.kt): it gives every
    distinct attribute set one class name, built from a per-prefix counter,
    keeps a table from CSS selector to attribute set, and renders that table
    as one stylesheet, selectors in ascending order. */
module Css {
  import opened Strings
  import opened Dom

  /** An attribute set as the source holds it: a linked hash map, so its
      entries have an order (the order they are printed in), while two sets
      with the same entries are equal whatever their order. */
  type Declarations = seq<(string, string)>

  /** The map an attribute set stands for; equality of attribute sets is
      equality of these maps. */
  function AsMap(ds: Declarations): map<string, string>
  {
    if ds == [] then map[]
    else AsMap(ds[..|ds| - 1])[ds[|ds| - 1].0 := ds[|ds| - 1].1]
  }

  lemma AsMapSnoc(ds: Declarations, key: string, value: string)
    ensures AsMap(ds + [(key, value)]) == AsMap(ds)[key := value]
  {
    assert (ds + [(key, value)])[..|ds|] == ds;
  }

  /** The keys of an attribute set are the keys of its entries. */
  lemma {:induction false} AsMapKeys(ds: Declarations)
    ensures forall i :: 0 <= i < |ds| ==> ds[i].0 in AsMap(ds)
    ensures forall k :: k in AsMap(ds) ==> exists i :: 0 <= i < |ds| && ds[i].0 == k
  {
    if ds != [] {
      var init := ds[..|ds| - 1];
      AsMapKeys(init);
      forall k | k in AsMap(ds)
        ensures exists i :: 0 <= i < |ds| && ds[i].0 == k
      {
        if k != ds[|ds| - 1].0 {
          assert AsMap(ds) == AsMap(init)[ds[|ds| - 1].0 := ds[|ds| - 1].1];
          assert k in AsMap(init);
          var i :| 0 <= i < |init| && init[i].0 == k;
          assert ds[i].0 == k;
        }
      }
      forall i | 0 <= i < |ds|
        ensures ds[i].0 in AsMap(ds)
      {
        if i < |init| {
          assert init[i] == ds[i];
        }
      }
    }
  }

  const Indent: string := "  "

  predicate IsLengthKey(key: string)
  {
    EndsWith(key, "-width") || EndsWith(key, "-size")
  }

  /** The value as printed: a length property whose value does not already
      end in "px" gets that unit appended; every other value is printed as is. */
  function UnitValue(key: string, value: string): (r: string)
    ensures r == value || r == value + "px"
    ensures IsLengthKey(key) ==> EndsWith(r, "px")
    ensures !IsLengthKey(key) || EndsWith(value, "px") ==> r == value
  {
    if !EndsWith(value, "px") && IsLengthKey(key) then
      assert (value + "px")[|value|..] == "px";
      value + "px"
    else value
  }

  /** One line of a rule: "\n  key: value;". */
  function Declaration(key: string, value: string): string
  {
    "\n" + Indent + key + ": " + UnitValue(key, value) + ";"
  }

  function DeclarationsText(ds: Declarations): string
  {
    if ds == [] then ""
    else DeclarationsText(ds[..|ds| - 1]) + Declaration(ds[|ds| - 1].0, ds[|ds| - 1].1)
  }

  function Block(selector: string, ds: Declarations): string
  {
    "\n" + selector + " {" + DeclarationsText(ds) + "\n}\n"
  }

  /** The rules for the given selectors, in the given order. */
  function BlocksText(selectors: seq<string>, table: map<string, Declarations>): (r: string)
    requires forall s :: s in selectors ==> s in table
    ensures |r| >= 6 * |selectors|
    ensures selectors != [] ==> r[0] == '\n' && r[|r| - 1] == '\n'
  {
    if selectors == [] then ""
    else
      var last := selectors[|selectors| - 1];
      BlocksText(selectors[..|selectors| - 1], table) + Block(last, table[last])
  }

  /** The whole stylesheet: the fixed extra lines, then one rule per selector
      of the table in ascending order of selector. */
  ghost function Stylesheet(extraLines: seq<string>, table: map<string, Declarations>): (r: string)
    ensures table == map[] ==> r == Join(extraLines, "\n")
    ensures |r| >= |Join(extraLines, "\n")| + 6 * |table|
  {
    Join(extraLines, "\n") + BlocksText(SortedOf(table.Keys), table)
  }

  /** The library sort of the selector set: ascending, each selector once. */
  method SortedSelectors(selectors: set<string>) returns (names: seq<string>)
    ensures names == SortedOf(selectors)
  {
    names := [];
    var rest := selectors;
    while rest != {}
      invariant rest <= selectors
      invariant StrictlySorted(names)
      invariant forall x :: x in names <==> x in selectors && x !in rest
      invariant forall i, y :: 0 <= i < |names| && y in rest ==> Below(names[i], y)
      decreases rest
    {
      LeastExists(rest);
      var m :| IsLeast(m, rest);
      names := names + [m];
      rest := rest - {m};
    }
    SortedUnique(names, SortedOf(selectors));
  }

  /** The interning invariant: every interned attribute set has a name made
      of a prefix and a counter value that prefix has already handed out, and
      no two attribute sets were given the same prefix and value. */
  ghost predicate Interned(origin: map<map<string, string>, (string, nat)>,
                           ids: map<map<string, string>, string>,
                           counter: map<string, nat>)
  {
    && (forall a :: a in ids ==>
          && a in origin
          && origin[a].0 in counter
          && origin[a].1 < counter[origin[a].0]
          && ids[a] == origin[a].0 + Decimal(origin[a].1))
    && (forall a, b :: a in ids && b in ids && a != b ==> origin[a] != origin[b])
  }

  /** Interning a new attribute set under the prefix's next counter value
      keeps the invariant. */
  lemma InternKeepsInvariant(origin: map<map<string, string>, (string, nat)>,
                             ids: map<map<string, string>, string>,
                             counter: map<string, nat>,
                             key: map<string, string>, prefix: string)
    requires Interned(origin, ids, counter) && key !in ids
    ensures var n := if prefix in counter then counter[prefix] else 0;
      Interned(origin[key := (prefix, n)], ids[key := prefix + Decimal(n)], counter[prefix := n + 1])
  {
    var n := if prefix in counter then counter[prefix] else 0;
    var o, i, c := origin[key := (prefix, n)], ids[key := prefix + Decimal(n)], counter[prefix := n + 1];
    forall a | a in i
      ensures a in o && o[a].0 in c && o[a].1 < c[o[a].0] && i[a] == o[a].0 + Decimal(o[a].1)
    {
      if a != key {
        assert a in ids && o[a] == origin[a] && i[a] == ids[a];
      }
    }
    forall a, b | a in i && b in i && a != b
      ensures o[a] != o[b]
    {
      if a != key && b != key {
        assert o[a] == origin[a] && o[b] == origin[b];
      } else if a == key {
        assert b in ids && o[b] == origin[b];
      } else {
        assert a in ids && o[a] == origin[a];
      }
    }
  }

  /** The three tables of the interner, as one value. */
  datatype StyleTables = StyleTables(ids: map<map<string, string>, string>,
                                     selectors: map<string, Declarations>,
                                     counter: map<string, nat>)

  /** add on the tables: the tables after the call and the class name it
      returns. The attribute set ends up interned under that name and every
      name handed out before is kept; a set already interned changes nothing
      and gets its old name; a new one is registered in the stylesheet under
      "." + its name. */
  function Added(t: StyleTables, prefix: string, attributes: Declarations): (r: (StyleTables, string))
    ensures r.0.ids == t.ids[AsMap(attributes) := r.1]
    ensures AsMap(attributes) in t.ids ==> r == (t, t.ids[AsMap(attributes)])
    ensures AsMap(attributes) !in t.ids ==> r.0.selectors == t.selectors["." + r.1 := attributes]
  {
    var key := AsMap(attributes);
    if key in t.ids then (t, t.ids[key])
    else
      var n := if prefix in t.counter then t.counter[prefix] else 0;
      var name := prefix + Decimal(n);
      (StyleTables(t.ids[key := name], t.selectors["." + name := attributes], t.counter[prefix := n + 1]), name)
  }

  /** Adding the same attribute set again, under any prefix, gives the same
      name and changes nothing. */
  lemma AddedIdempotent(t: StyleTables, prefix: string, other: string, attributes: Declarations)
    ensures Added(Added(t, prefix, attributes).0, other, attributes) == Added(t, prefix, attributes)
  {
  }

  class CssBuilder {
    /** attribute set -> generated class name */
    var attributesToId: map<map<string, string>, string>
    /** selector -> attribute set, in the order the set was first given */
    var styleNameToAttributes: map<string, Declarations>
    /** prefix -> next counter value; a missing prefix stands at 0 */
    var counter: map<string, nat>
    /** for each interned attribute set, the prefix and counter value its name was built from */
    ghost var origin: map<map<string, string>, (string, nat)>

    ghost predicate Valid()
      reads this
    {
      Interned(origin, attributesToId, counter)
    }

    function State(): StyleTables
      reads this
    {
      StyleTables(attributesToId, styleNameToAttributes, counter)
    }

    /** The counter value the next name under this prefix will carry. */
    function NextIndex(prefix: string): nat
      reads this
    {
      if prefix in counter then counter[prefix] else 0
    }

    constructor ()
      ensures Valid()
      ensures attributesToId == map[] && styleNameToAttributes == map[] && counter == map[]
    {
      attributesToId := map[];
      styleNameToAttributes := map[];
      counter := map[];
      origin := map[];
    }

    /** The class name of an attribute set. An attribute set equal to one
        already interned gets that one's name, whatever the prefix, and
        nothing changes; a new one gets the prefix followed by the prefix's
        counter, which then goes up by one, and the name is registered under
        the selector "." + name. */
    method Add(prefix: string, attributes: Declarations) returns (className: string)
      requires Valid()
      modifies this
      ensures Valid()
      ensures (State(), className) == Added(old(State()), prefix, attributes)
      ensures attributesToId == old(attributesToId)[AsMap(attributes) := className]
      ensures AsMap(attributes) in old(attributesToId) ==>
        && className == old(attributesToId[AsMap(attributes)])
        && styleNameToAttributes == old(styleNameToAttributes)
        && counter == old(counter) && origin == old(origin)
      ensures AsMap(attributes) !in old(attributesToId) ==>
        && className == prefix + Decimal(old(NextIndex(prefix)))
        && counter == old(counter)[prefix := old(NextIndex(prefix)) + 1]
        && styleNameToAttributes == old(styleNameToAttributes)["." + className := attributes]
      ensures AsMap(attributes) !in old(attributesToId) ==>
        forall a :: a in old(attributesToId) && old(origin)[a].0 == prefix ==> old(attributesToId)[a] != className
    {
      var key := AsMap(attributes);
      if key in attributesToId {
        return attributesToId[key];
      }
      var n := if prefix in counter then counter[prefix] else 0;
      className := prefix + Decimal(n);
      forall a | a in attributesToId && origin[a].0 == prefix
        ensures attributesToId[a] != className
      {
        SamePrefixNamesDiffer(prefix, origin[a].1, n);
      }
      InternKeepsInvariant(origin, attributesToId, counter, key, prefix);
      ghost var counter1 := counter[prefix := NextIndex(prefix) + 1];
      counter := counter[prefix := n + 1];
      assert counter == counter1;
      attributesToId := attributesToId[key := className];
      styleNameToAttributes := styleNameToAttributes["." + className := attributes];
      origin := origin[key := (prefix, n)];
    }

    /** Registers an attribute set under a selector given verbatim,
        replacing whatever that selector held; nothing else changes. */
    method AddNamed(name: string, attributes: Declarations)
      requires Valid()
      modifies this
      ensures Valid()
      ensures styleNameToAttributes == old(styleNameToAttributes)[name := attributes]
      ensures attributesToId == old(attributesToId) && counter == old(counter) && origin == old(origin)
    {
      styleNameToAttributes := styleNameToAttributes[name := attributes];
    }

    /** The stylesheet text, or None (the style element is never created)
        when no selector was ever registered. */
    method ApplyStyle(extraLines: seq<string>) returns (css: Option<string>)
      ensures css == None <==> |styleNameToAttributes| == 0
      ensures css.Some? ==> css.value == Stylesheet(extraLines, styleNameToAttributes)
    {
      if |styleNameToAttributes| == 0 {
        return None;
      }
      var table := styleNameToAttributes;
      var names := SortedSelectors(table.Keys);
      var builder := Join(extraLines, "\n");
      ghost var head := builder;
      var i := 0;
      while i < |names|
        invariant 0 <= i <= |names|
        invariant builder == head + BlocksText(names[..i], table)
      {
        var name := names[i];
        ghost var rowStart := builder;
        builder := builder + "\n" + name + " {";
        ghost var open := builder;
        var decls := table[name];
        var j := 0;
        while j < |decls|
          invariant 0 <= j <= |decls|
          invariant builder == open + DeclarationsText(decls[..j])
        {
          var (key, value) := decls[j];
          ghost var before := builder;
          builder := builder + "\n" + Indent + key + ": " + value;
          if !EndsWith(value, "px") && (EndsWith(key, "-width") || EndsWith(key, "-size")) {
            builder := builder + "px";
          }
          builder := builder + ";";
          DeclarationAppended(before, key, value);
          assert builder == before + Declaration(key, value);
          DeclarationsTextStep(open, decls, j);
          assert builder == open + DeclarationsText(decls[..j]) + Declaration(decls[j].0, decls[j].1);
          assert builder == open + DeclarationsText(decls[..j + 1]);
          j := j + 1;
        }
        builder := builder + "\n}\n";
        assert decls[..j] == decls;
        BlockAppended(rowStart, name, decls);
        BlocksTextStep(head, names, i, table);
        i := i + 1;
      }
      assert names[..i] == names;
      css := Some(builder);
    }
  }

  // Steps of the rendering loop: what each group of appends adds.

  lemma DeclarationAppended(before: string, key: string, value: string)
    ensures !EndsWith(value, "px") && IsLengthKey(key) ==>
      before + "\n" + Indent + key + ": " + value + "px" + ";" == before + Declaration(key, value)
    ensures !(!EndsWith(value, "px") && IsLengthKey(key)) ==>
      before + "\n" + Indent + key + ": " + value + ";" == before + Declaration(key, value)
  {
    var head := "\n" + Indent + key + ": ";
    var u := UnitValue(key, value);
    assert before + "\n" + Indent + key + ": " == before + head;
    assert before + head + u + ";" == before + (head + u + ";");
    if !EndsWith(value, "px") && IsLengthKey(key) {
      assert before + head + value + "px" == before + head + u;
    }
  }

  lemma DeclarationsTextStep(open: string, ds: Declarations, j: nat)
    requires j < |ds|
    ensures open + DeclarationsText(ds[..j]) + Declaration(ds[j].0, ds[j].1)
      == open + DeclarationsText(ds[..j + 1])
  {
    assert ds[..j + 1][..j] == ds[..j];
  }

  lemma BlockAppended(rowStart: string, selector: string, ds: Declarations)
    ensures rowStart + "\n" + selector + " {" + DeclarationsText(ds) + "\n}\n" == rowStart + Block(selector, ds)
  {
  }

  lemma BlocksTextStep(head: string, selectors: seq<string>, i: nat, table: map<string, Declarations>)
    requires i < |selectors| && forall s :: s in selectors ==> s in table
    ensures head + BlocksText(selectors[..i], table) + Block(selectors[i], table[selectors[i]])
      == head + BlocksText(selectors[..i + 1], table)
  {
    var front, last := selectors[..i], selectors[i];
    assert selectors[..i + 1][..i] == front;
    assert selectors[..i + 1][i] == last;
    assert BlocksText(selectors[..i + 1], table) == BlocksText(front, table) + Block(last, table[last]);
  }

  /** Distinct attribute sets interned under the same prefix have distinct names. */
  lemma SamePrefixClassesDistinct(b: CssBuilder, x: map<string, string>, y: map<string, string>)
    requires b.Valid()
    requires x in b.attributesToId && y in b.attributesToId && x != y
    requires b.origin[x].0 == b.origin[y].0
    ensures b.attributesToId[x] != b.attributesToId[y]
  {
    SamePrefixNamesDiffer(b.origin[x].0, b.origin[x].1, b.origin[y].1);
  }

  /** When no prefix ever used contains a decimal digit (the back end uses
      "l", "b" and "t"), distinct attribute sets have distinct names, so no
      rule is ever shadowed by another. */
  lemma ClassesDistinct(b: CssBuilder, x: map<string, string>, y: map<string, string>)
    requires b.Valid()
    requires forall p :: p in b.counter ==> DigitFree(p)
    requires x in b.attributesToId && y in b.attributesToId && x != y
    ensures b.attributesToId[x] != b.attributesToId[y]
  {
    NumberedNameInjective(b.origin[x].0, b.origin[x].1, b.origin[y].0, b.origin[y].1);
  }
}
