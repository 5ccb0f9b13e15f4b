/** The annotation processor's `SourceUtil` helpers: first-letter case
    changes, and the searches that walk a type's superclass chain. */
module SourceUtil {
  import opened Base
  import opened JavaStrings

  /** `capitalizeFirstLetter(input)`: the first character upper-cased, the
      rest unchanged; `substring(0, 1)` throws on the empty string. */
  function CapitalizeFirstLetter(input: string): (r: Result<string>)
    ensures r.Failure? <==> input == []
    ensures r.Failure? ==> r.error == StringIndexOutOfBoundsException
    ensures r.Success? ==>
              |r.value| == |input| && r.value[0] == UpperAscii(input[0]) &&
              r.value[1..] == input[1..]
  {
    if input == [] then Failure(StringIndexOutOfBoundsException)
    else Success(UpperString(input[..1]) + input[1..])
  }

  /** `smallFirstLetter(input)`: the first character lower-cased, the rest
      unchanged; throws on the empty string like its sibling. */
  function SmallFirstLetter(input: string): (r: Result<string>)
    ensures r.Failure? <==> input == []
    ensures r.Failure? ==> r.error == StringIndexOutOfBoundsException
    ensures r.Success? ==>
              |r.value| == |input| && r.value[0] == LowerAscii(input[0]) &&
              r.value[1..] == input[1..]
  {
    if input == [] then Failure(StringIndexOutOfBoundsException)
    else Success(LowerString(input[..1]) + input[1..])
  }

  /** Both helpers are idempotent, the second of two opposite changes wins,
      and neither touches anything after the first character. */
  lemma FirstLetterLaws(s: string)
    requires s != []
    ensures CapitalizeFirstLetter(CapitalizeFirstLetter(s).value) == CapitalizeFirstLetter(s)
    ensures SmallFirstLetter(SmallFirstLetter(s).value) == SmallFirstLetter(s)
    ensures SmallFirstLetter(CapitalizeFirstLetter(s).value) == SmallFirstLetter(s) ||
            !('a' <= s[0] <= 'z' || 'A' <= s[0] <= 'Z')
    ensures CapitalizeFirstLetter(SmallFirstLetter(s).value) == CapitalizeFirstLetter(s) ||
            !('a' <= s[0] <= 'z' || 'A' <= s[0] <= 'Z')
    ensures !('a' <= CapitalizeFirstLetter(s).value[0] <= 'z')
    ensures !('A' <= SmallFirstLetter(s).value[0] <= 'Z')
  {
    var c, l := CapitalizeFirstLetter(s).value, SmallFirstLetter(s).value;
    assert CapitalizeFirstLetter(c).value == c;
    assert SmallFirstLetter(l).value == l;
    if 'a' <= s[0] <= 'z' || 'A' <= s[0] <= 'Z' {
      assert SmallFirstLetter(c).value == l;
      assert CapitalizeFirstLetter(l).value == c;
    }
  }

  /** The name of an annotation type, e.g. "BrixRoute". */
  type AnnotationKind = string

  /** An annotation's `value()` element, as far as the processor reads it:
      none, one string (null when absent) or an array of strings. */
  datatype AnnotationValue = Marker | Text(text: Option<string>) | Texts(texts: Option<seq<string>>)

  datatype ElementKind = MethodElement | FieldElement | ConstructorElement | OtherElement

  /** A member enclosed by a type: its simple name, kind and annotation types. */
  datatype Element = Element(name: string, kind: ElementKind, annotations: set<AnnotationKind>)

  /** A class: its own annotations, its enclosed members in declaration
      order, and its superclass (`None` where `getSuperclass()` has kind NONE,
      which is the case of java.lang.Object). */
  datatype TypeElement = TypeElement(annotations: map<AnnotationKind, AnnotationValue>,
                                     enclosed: seq<Element>,
                                     superclass: Option<TypeElement>)

  /** The type followed by its superclasses, up to the root. */
  function Chain(t: TypeElement): (c: seq<TypeElement>)
    ensures |c| >= 1 && c[0] == t && c[|c| - 1].superclass.None?
    decreases t
  {
    if t.superclass.None? then [t] else [t] + Chain(t.superclass.value)
  }

  /** `findClassAnnotation(element, annotation)`: the annotation on the
      element itself, else on its superclass, recursively; null past the root. */
  function FindClassAnnotation(t: TypeElement, a: AnnotationKind): (r: Option<AnnotationValue>)
    ensures a in t.annotations ==> r == Some(t.annotations[a])
    decreases t
  {
    if a in t.annotations then Some(t.annotations[a])
    else if t.superclass.None? then None
    else FindClassAnnotation(t.superclass.value, a)
  }

  /** Level `i` of chain `c` carries annotation `a`, and no nearer level does. */
  predicate NearestWith(c: seq<TypeElement>, a: AnnotationKind, i: int) {
    0 <= i < |c| && a in c[i].annotations &&
    forall j :: 0 <= j < i ==> a !in c[j].annotations
  }

  /** The search answers with the nearest level of the chain that carries the
      annotation, and with null exactly when no level does. */
  lemma {:induction false} FindClassAnnotationNearest(t: TypeElement, a: AnnotationKind)
    ensures FindClassAnnotation(t, a).None? <==>
              forall i :: 0 <= i < |Chain(t)| ==> a !in Chain(t)[i].annotations
    ensures FindClassAnnotation(t, a).Some? ==>
              exists i :: NearestWith(Chain(t), a, i) &&
                FindClassAnnotation(t, a).value == Chain(t)[i].annotations[a]
    decreases t
  {
    var c := Chain(t);
    if a in t.annotations {
      assert NearestWith(c, a, 0);
    } else if t.superclass.None? {
      assert c == [t];
    } else {
      var s := t.superclass.value;
      FindClassAnnotationNearest(s, a);
      var cs := Chain(s);
      assert c == [t] + cs;
      assert FindClassAnnotation(t, a) == FindClassAnnotation(s, a);
      if FindClassAnnotation(s, a).Some? {
        var n :| NearestWith(cs, a, n) && FindClassAnnotation(s, a).value == cs[n].annotations[a];
        forall j | 0 <= j < n + 1
          ensures a !in c[j].annotations
        {
          if j > 0 {
            assert c[j] == cs[j - 1];
          }
        }
        assert c[n + 1] == cs[n];
        assert NearestWith(c, a, n + 1);
        assert FindClassAnnotation(t, a).Some?;
        assert n + 1 < |Chain(t)| && a in Chain(t)[n + 1].annotations;
      } else {
        assert forall k :: 0 <= k < |Chain(s)| ==> a !in Chain(s)[k].annotations;
        forall i | 0 <= i < |c|
          ensures a !in c[i].annotations
        {
          if i > 0 {
            assert c[i] == cs[i - 1];
          }
        }
      }
    }
  }

  /** The members of one type that pass the filter and carry the annotation,
      in declaration order (the `filter(...).filter(...)` stream). */
  function Matching(es: seq<Element>, a: AnnotationKind, filter: Element -> bool): (r: seq<Element>)
    ensures |r| <= |es|
    ensures forall e :: e in r <==> e in es && filter(e) && a in e.annotations
  {
    if es == [] then []
    else (if filter(es[0]) && a in es[0].annotations then [es[0]] else []) + Matching(es[1..], a, filter)
  }

  /** `findFirst()` on the same stream: the first matching member. */
  function FirstMatching(es: seq<Element>, a: AnnotationKind, filter: Element -> bool): (r: Option<Element>)
    ensures r == if Matching(es, a, filter) == [] then None else Some(Matching(es, a, filter)[0])
  {
    if es == [] then None
    else if filter(es[0]) && a in es[0].annotations then Some(es[0])
    else FirstMatching(es[1..], a, filter)
  }

  /** `getAnnotatedElements(typeElement, annotation, filter)`: the type's own
      matching members, then those of its superclass, recursively; a type whose
      superclass is NONE contributes nothing, not even its own members. */
  function GetAnnotatedElements(t: TypeElement, a: AnnotationKind, filter: Element -> bool): (r: seq<Element>)
    ensures forall e :: e in r ==> filter(e) && a in e.annotations
    decreases t
  {
    if t.superclass.None? then []
    else Matching(t.enclosed, a, filter) + GetAnnotatedElements(t.superclass.value, a, filter)
  }

  /** The filter `getAnnotatedMethods` passes: the element is a method. */
  predicate IsMethod(e: Element) {
    e.kind == MethodElement
  }

  /** `getAnnotatedMethods(type, annotation)`: the search restricted to methods. */
  function GetAnnotatedMethods(t: TypeElement, a: AnnotationKind): (r: seq<Element>)
    ensures forall e :: e in r ==> e.kind == MethodElement && a in e.annotations
  {
    GetAnnotatedElements(t, a, IsMethod)
  }

  /** The matches of each level of a chain, level by level. */
  function LevelsMatching(levels: seq<TypeElement>, a: AnnotationKind, filter: Element -> bool): seq<Element>
  {
    if levels == [] then [] else Matching(levels[0].enclosed, a, filter) + LevelsMatching(levels[1..], a, filter)
  }

  /** The result lists every level of the chain except the root, nearest level
      first, each level in declaration order. */
  lemma {:induction false} AnnotatedElementsByLevel(t: TypeElement, a: AnnotationKind, filter: Element -> bool)
    ensures GetAnnotatedElements(t, a, filter) == LevelsMatching(Chain(t)[..|Chain(t)| - 1], a, filter)
    decreases t
  {
    if t.superclass.Some? {
      var s := t.superclass.value;
      AnnotatedElementsByLevel(s, a, filter);
      var c := Chain(t);
      assert c == [t] + Chain(s);
      assert c[..|c| - 1] == [t] + Chain(s)[..|Chain(s)| - 1];
    }
  }

  /** A member is found exactly when some non-root level of the chain
      encloses it, it passes the filter, and it carries the annotation. */
  lemma {:induction false} AnnotatedElementsMembership(t: TypeElement, a: AnnotationKind,
                                                        filter: Element -> bool, e: Element)
    ensures e in GetAnnotatedElements(t, a, filter) <==>
              filter(e) && a in e.annotations &&
              exists i :: 0 <= i < |Chain(t)| - 1 && e in Chain(t)[i].enclosed
    decreases t
  {
    if t.superclass.Some? {
      var s := t.superclass.value;
      AnnotatedElementsMembership(s, a, filter, e);
      var c, cs := Chain(t), Chain(s);
      assert c == [t] + cs;
      if e in GetAnnotatedElements(t, a, filter) {
        if e in t.enclosed {
          assert c[0] == t;
        } else {
          var i :| 0 <= i < |cs| - 1 && e in cs[i].enclosed;
          assert c[i + 1] == cs[i];
        }
      }
      if filter(e) && a in e.annotations && exists i :: 0 <= i < |c| - 1 && e in c[i].enclosed {
        var i :| 0 <= i < |c| - 1 && e in c[i].enclosed;
        if i > 0 {
          assert c[i] == cs[i - 1];
        }
      }
    }
  }

  /** `findFirstAnnotatedElement(typeElement, annotation, filter)`: the first
      match at the nearest level that has one; empty past the root. It is the
      head of what `getAnnotatedElements` lists. */
  function FindFirstAnnotatedElement(t: TypeElement, a: AnnotationKind, filter: Element -> bool): (r: Option<Element>)
    ensures r == if GetAnnotatedElements(t, a, filter) == [] then None
                 else Some(GetAnnotatedElements(t, a, filter)[0])
    decreases t
  {
    if t.superclass.None? then None
    else match FirstMatching(t.enclosed, a, filter)
      case Some(e) => Some(e)
      case None => FindFirstAnnotatedElement(t.superclass.value, a, filter)
  }
}
