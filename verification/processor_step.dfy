/** The naming rules and emission decisions of the annotation processor's
    `DominoBrixProcessorStep`: how a slot name becomes a method or a constant
    name, and which overrides a generated presenter class receives. */
module ProcessorStep {
  import opened Base
  import opened JavaStrings
  import opened SourceUtil

  // ---------------------------------------------------------------------
  // Splitting a slot name on the regular expression "-|\\."
  // ---------------------------------------------------------------------

  predicate IsSeparator(c: char) {
    c == '-' || c == '.'
  }

  predicate NoSeparator(s: string) {
    forall x :: 0 <= x < |s| ==> !IsSeparator(s[x])
  }

  /** The pieces of `s` between separators, empty pieces included: what the
      regular-expression split finds before Java discards trailing empties. */
  function Pieces(s: string): (r: seq<string>)
    ensures |r| >= 1
    ensures forall k :: 0 <= k < |r| ==> NoSeparator(r[k])
  {
    if s == [] then [[]]
    else
      var rest := Pieces(s[1..]);
      if IsSeparator(s[0]) then [[]] + rest
      else
        assert NoSeparator(rest[0]);
        [[s[0]] + rest[0]] + rest[1..]
  }

  /** Removes the empty strings at the end of a split result. */
  function DropTrailingEmpty(ss: seq<string>): (r: seq<string>)
    ensures |r| <= |ss| && r == ss[..|r|]
    ensures r != [] ==> r[|r| - 1] != []
    ensures forall k :: |r| <= k < |ss| ==> ss[k] == []
  {
    if ss == [] then []
    else if ss[|ss| - 1] == [] then DropTrailingEmpty(ss[..|ss| - 1])
    else ss
  }

  /** `slotName.split("-|\\.")`: a string without any separator (the empty
      string included) is its own single piece; otherwise the pieces, less
      the empty ones at the end. */
  function JavaSplit(s: string): (r: seq<string>)
    ensures forall k :: 0 <= k < |r| ==> NoSeparator(r[k])
  {
    if s == [] then [[]] else DropTrailingEmpty(Pieces(s))
  }

  /** `Collectors.joining(sep)`. */
  function Join(ss: seq<string>, sep: string): string {
    if ss == [] then []
    else if |ss| == 1 then ss[0]
    else ss[0] + sep + Join(ss[1..], sep)
  }

  /** `map(capitalizeFirstLetter).collect(joining())`: the stream stops at
      the first empty segment, whose `substring(0, 1)` throws. */
  function CapitalizeAll(segs: seq<string>): (r: Result<string>)
    ensures r.Failure? <==> exists k :: 0 <= k < |segs| && segs[k] == []
    ensures r.Failure? ==> r.error == StringIndexOutOfBoundsException
    ensures r.Success? && (forall k :: 0 <= k < |segs| ==> NoSeparator(segs[k])) ==>
              NoSeparator(r.value)
  {
    if segs == [] then Success([])
    else match CapitalizeFirstLetter(segs[0])
      case Failure(e) => Failure(e)
      case Success(head) =>
        match CapitalizeAll(segs[1..])
        case Failure(e) => Failure(e)
        case Success(tail) =>
          assert forall k :: 1 <= k < |segs| ==> segs[k] == segs[1..][k - 1];
          Success(head + tail)
  }

  /** `slotAsMethodName(slotName)`: "get", the capitalised segments, "Slot". */
  function SlotAsMethodName(slotName: string): (r: Result<string>)
    ensures r.Success? ==>
              |r.value| >= 7 && r.value[..3] == "get" && r.value[|r.value| - 4..] == "Slot" &&
              NoSeparator(r.value)
  {
    match CapitalizeAll(JavaSplit(slotName))
    case Failure(e) => Failure(e)
    case Success(m) =>
      var name := "get" + m + "Slot";
      assert forall x :: 3 <= x < 3 + |m| ==> name[x] == m[x - 3];
      Success(name)
  }

  /** `String.toUpperCase` on every segment. */
  function UpperAll(ss: seq<string>): (r: seq<string>)
    ensures |r| == |ss| && forall k :: 0 <= k < |ss| ==> r[k] == UpperString(ss[k])
  {
    if ss == [] then [] else [UpperString(ss[0])] + UpperAll(ss[1..])
  }

  /** `slotAsFieldName(slotName)`: the upper-cased segments joined by "_". */
  function SlotAsFieldName(slotName: string): string {
    Join(UpperAll(JavaSplit(slotName)), "_")
  }

  /** `s` with every separator replaced by `c`. */
  function ReplaceSeparators(s: string, c: char): (r: string)
    ensures |r| == |s|
    ensures forall x :: 0 <= x < |s| ==> r[x] == if IsSeparator(s[x]) then c else s[x]
  {
    if s == [] then [] else [if IsSeparator(s[0]) then c else s[0]] + ReplaceSeparators(s[1..], c)
  }

  // ---------------------------------------------------------------------
  // Facts about the pieces
  // ---------------------------------------------------------------------

  /** Gluing the pieces back together with one character restores the string,
      each separator replaced by that character. */
  lemma {:induction false} PiecesJoin(s: string, c: char)
    ensures Join(Pieces(s), [c]) == ReplaceSeparators(s, c)
  {
    if s != [] {
      var rest := Pieces(s[1..]);
      PiecesJoin(s[1..], c);
      if IsSeparator(s[0]) {
        assert Pieces(s) == [[]] + rest;
        assert Join(Pieces(s), [c]) == [] + [c] + Join(rest, [c]);
      } else {
        var p := Pieces(s);
        assert p == [[s[0]] + rest[0]] + rest[1..];
        if |rest| == 1 {
          assert Join(p, [c]) == [s[0]] + rest[0];
        } else {
          assert p[1..] == rest[1..];
          assert Join(p, [c]) == [s[0]] + rest[0] + [c] + Join(rest[1..], [c]);
        }
      }
    }
  }

  /** Some piece is non-empty exactly when the string holds a character
      other than a separator. */
  lemma {:induction false} NonEmptyPieceIffLetter(s: string)
    ensures (exists m :: 0 <= m < |Pieces(s)| && Pieces(s)[m] != []) <==>
            (exists j :: 0 <= j < |s| && !IsSeparator(s[j]))
  {
    if s != [] {
      var t := s[1..];
      NonEmptyPieceIffLetter(t);
      if IsSeparator(s[0]) {
        var p := Pieces(s);
        assert p == [[]] + Pieces(t);
        if exists m :: 0 <= m < |p| && p[m] != [] {
          var m :| 0 <= m < |p| && p[m] != [];
          assert Pieces(t)[m - 1] != [];
          var j :| 0 <= j < |t| && !IsSeparator(t[j]);
          assert s[j + 1] == t[j];
        }
        if exists j :: 0 <= j < |s| && !IsSeparator(s[j]) {
          var j :| 0 <= j < |s| && !IsSeparator(s[j]);
          assert t[j - 1] == s[j];
          var m :| 0 <= m < |Pieces(t)| && Pieces(t)[m] != [];
          assert p[m + 1] != [];
        }
      } else {
        assert Pieces(s)[0] != [];
      }
    }
  }

  /** Piece `k` is empty while a later piece `m` is not. */
  predicate EmptyBefore(p: seq<string>, k: int, m: int) {
    0 <= k < m < |p| && p[k] == [] && p[m] != []
  }

  /** A separator at `i` that opens the string or follows another separator,
      with a non-separator character at `j` further on. */
  predicate BadSeparator(s: string, i: int, j: int) {
    0 <= i < j < |s| && IsSeparator(s[i]) && (i == 0 || IsSeparator(s[i - 1])) && !IsSeparator(s[j])
  }

  /** How the first character of a non-empty string shapes its pieces: a
      separator opens an empty piece, any other character joins the first. */
  lemma {:induction false} PiecesStep(s: string)
    requires s != []
    ensures IsSeparator(s[0]) ==>
              |Pieces(s)| == |Pieces(s[1..])| + 1 && Pieces(s)[0] == [] &&
              forall k :: 1 <= k < |Pieces(s)| ==> Pieces(s)[k] == Pieces(s[1..])[k - 1]
    ensures !IsSeparator(s[0]) ==>
              |Pieces(s)| == |Pieces(s[1..])| && Pieces(s)[0] != [] &&
              forall k :: 1 <= k < |Pieces(s)| ==> Pieces(s)[k] == Pieces(s[1..])[k]
  {
    var rest := Pieces(s[1..]);
    if IsSeparator(s[0]) {
      assert Pieces(s) == [[]] + rest;
    } else {
      assert Pieces(s) == [[s[0]] + rest[0]] + rest[1..];
    }
  }

  lemma {:induction false} BadGivesEmptyBefore(s: string, i: int, j: int)
    requires BadSeparator(s, i, j)
    ensures exists k, m :: EmptyBefore(Pieces(s), k, m) && (i >= 1 ==> k >= 1)
  {
    var t := s[1..];
    var p, pt := Pieces(s), Pieces(t);
    PiecesStep(s);
    if IsSeparator(s[0]) {
      if i == 0 {
        assert !IsSeparator(t[j - 1]);
        NonEmptyPieceIffLetter(t);
        var m :| 0 <= m < |pt| && pt[m] != [];
        assert p[m + 1] == pt[m];
        assert EmptyBefore(p, 0, m + 1);
      } else {
        assert BadSeparator(t, i - 1, j - 1);
        BadGivesEmptyBefore(t, i - 1, j - 1);
        var k, m :| EmptyBefore(pt, k, m) && (i - 1 >= 1 ==> k >= 1);
        assert p[k + 1] == pt[k] && p[m + 1] == pt[m];
        assert EmptyBefore(p, k + 1, m + 1);
      }
    } else {
      assert i >= 2;
      assert BadSeparator(t, i - 1, j - 1);
      BadGivesEmptyBefore(t, i - 1, j - 1);
      var k, m :| EmptyBefore(pt, k, m) && k >= 1;
      assert p[k] == pt[k] && p[m] == pt[m];
      assert EmptyBefore(p, k, m);
    }
  }

  lemma {:induction false} EmptyBeforeGivesBad(s: string, k: int, m: int)
    requires EmptyBefore(Pieces(s), k, m)
    ensures exists i, j :: BadSeparator(s, i, j) && (k >= 1 ==> i >= 1)
  {
    assert s != [];
    var t := s[1..];
    var p, pt := Pieces(s), Pieces(t);
    PiecesStep(s);
    if IsSeparator(s[0]) {
      if k == 0 {
        assert pt[m - 1] == p[m];
        LeadingSeparatorGivesBad(s, m - 1);
      } else {
        assert pt[k - 1] == p[k] && pt[m - 1] == p[m];
        assert EmptyBefore(pt, k - 1, m - 1);
        EmptyBeforeGivesBad(t, k - 1, m - 1);
        var i, j :| BadSeparator(t, i, j) && (k - 1 >= 1 ==> i >= 1);
        assert s[i + 1] == t[i] && s[j + 1] == t[j] && s[i] == (if i == 0 then s[0] else t[i - 1]);
        assert BadSeparator(s, i + 1, j + 1);
      }
    } else {
      assert k >= 1;
      assert p[k] == pt[k] && p[m] == pt[m];
      EmptyBeforeGivesBad(t, k, m);
      var i, j :| BadSeparator(t, i, j) && i >= 1;
      assert s[i + 1] == t[i] && s[j + 1] == t[j] && s[i] == t[i - 1];
      assert BadSeparator(s, i + 1, j + 1);
    }
  }

  /** A leading separator followed later by a non-empty piece is a bad
      separator at position 0. */
  lemma LeadingSeparatorGivesBad(s: string, m: int)
    requires s != [] && IsSeparator(s[0]) && 0 <= m < |Pieces(s[1..])| && Pieces(s[1..])[m] != []
    ensures exists j :: BadSeparator(s, 0, j)
  {
    var t := s[1..];
    NonEmptyPieceIffLetter(t);
    var j :| 0 <= j < |t| && !IsSeparator(t[j]);
    assert BadSeparator(s, 0, j + 1);
  }

  /** What survives the dropping of trailing empties holds an empty piece
      exactly when the pieces hold an empty one before a non-empty one. */
  lemma DropKeepsEmptyIff(p: seq<string>)
    ensures (exists k :: 0 <= k < |DropTrailingEmpty(p)| && DropTrailingEmpty(p)[k] == []) <==>
            (exists k, m :: EmptyBefore(p, k, m))
  {
    var r := DropTrailingEmpty(p);
    if exists k :: 0 <= k < |r| && r[k] == [] {
      var k :| 0 <= k < |r| && r[k] == [];
      assert EmptyBefore(p, k, |r| - 1);
    }
    if exists k, m :: EmptyBefore(p, k, m) {
      var k, m :| EmptyBefore(p, k, m);
      assert m < |r|;
      assert r[k] == p[..|r|][k] == p[k];
      assert 0 <= k < |r| && r[k] == [];
      assert exists k' :: 0 <= k' < |DropTrailingEmpty(p)| && DropTrailingEmpty(p)[k'] == [];
    }
  }

  /** `slotAsMethodName` throws exactly for the empty name and for a name with
      a leading or doubled separator that some other character follows;
      separators at the end are harmless. */
  lemma SlotAsMethodNameThrowsIff(s: string)
    ensures SlotAsMethodName(s).Failure? <==> s == [] || exists i, j :: BadSeparator(s, i, j)
    ensures SlotAsMethodName(s).Failure? ==> SlotAsMethodName(s).error == StringIndexOutOfBoundsException
  {
    if s == [] {
      assert JavaSplit(s)[0] == [];
    } else {
      DropKeepsEmptyIff(Pieces(s));
      if exists i, j :: BadSeparator(s, i, j) {
        var i, j :| BadSeparator(s, i, j);
        BadGivesEmptyBefore(s, i, j);
      }
      if exists k, m :: EmptyBefore(Pieces(s), k, m) {
        var k, m :| EmptyBefore(Pieces(s), k, m);
        EmptyBeforeGivesBad(s, k, m);
      }
    }
  }

  /** Appending a separator to a non-empty name adds an empty piece at the end. */
  lemma {:induction false} PiecesSnoc(s: string, c: char)
    requires IsSeparator(c)
    ensures Pieces(s + [c]) == Pieces(s) + [[]]
  {
    if s == [] {
      assert Pieces([c]) == [[]] + Pieces([]);
    } else {
      assert (s + [c])[1..] == s[1..] + [c];
      PiecesSnoc(s[1..], c);
    }
  }

  /** Java drops the trailing empty string, so a separator at the end of a
      non-empty name changes neither derived name. */
  lemma TrailingSeparatorIgnored(s: string, c: char)
    requires s != [] && IsSeparator(c)
    ensures JavaSplit(s + [c]) == JavaSplit(s)
    ensures SlotAsMethodName(s + [c]) == SlotAsMethodName(s)
    ensures SlotAsFieldName(s + [c]) == SlotAsFieldName(s)
  {
    PiecesSnoc(s, c);
    var p := Pieces(s);
    assert (p + [[]])[..|p|] == p;
  }

  /** A name without separators is one segment. */
  lemma {:induction false} PiecesOfPlain(s: string)
    requires NoSeparator(s)
    ensures Pieces(s) == [s]
  {
    if s != [] {
      assert forall x :: 0 <= x < |s| - 1 ==> s[1..][x] == s[x + 1];
      PiecesOfPlain(s[1..]);
      assert [s[0]] + s[1..] == s;
    }
  }

  /** A non-empty name without separators becomes "get" + Name + "Slot" and
      an upper-cased constant name. */
  lemma PlainSlotName(s: string)
    requires s != [] && NoSeparator(s)
    ensures SlotAsMethodName(s) == Success("get" + CapitalizeFirstLetter(s).value + "Slot")
    ensures SlotAsFieldName(s) == UpperString(s)
  {
    PiecesOfPlain(s);
    assert JavaSplit(s) == [s];
    var h := CapitalizeFirstLetter(s).value;
    assert [s][1..] == [];
    assert CapitalizeAll([s]) == Success(h + []);
    assert h + [] == h;
  }

  /** A name that does not end with a separator keeps its last piece. */
  lemma {:induction false} LastPieceNonEmpty(s: string)
    requires s != [] && !IsSeparator(s[|s| - 1])
    ensures Pieces(s)[|Pieces(s)| - 1] != []
  {
    var t := s[1..];
    if t != [] {
      assert t[|t| - 1] == s[|s| - 1];
      LastPieceNonEmpty(t);
    }
  }

  lemma {:induction false} UpperStringAppend(a: string, b: string)
    ensures UpperString(a + b) == UpperString(a) + UpperString(b)
  {
    if a != [] {
      assert (a + b)[1..] == a[1..] + b;
      UpperStringAppend(a[1..], b);
    }
  }

  lemma {:induction false} JoinUpper(ss: seq<string>)
    ensures Join(UpperAll(ss), "_") == UpperString(Join(ss, "_"))
  {
    if |ss| > 1 {
      JoinUpper(ss[1..]);
      assert UpperAll(ss)[1..] == UpperAll(ss[1..]);
      UpperStringAppend(ss[0], "_");
      UpperStringAppend(ss[0] + "_", Join(ss[1..], "_"));
    }
  }

  /** `slotAsFieldName` turns every separator into "_" and upper-cases the
      rest, when the name does not end with a separator. */
  lemma SlotAsFieldNameReplaces(s: string)
    requires s == [] || !IsSeparator(s[|s| - 1])
    ensures SlotAsFieldName(s) == UpperString(ReplaceSeparators(s, '_'))
  {
    JoinUpper(JavaSplit(s));
    if s != [] {
      LastPieceNonEmpty(s);
      PiecesJoin(s, '_');
      assert JavaSplit(s) == Pieces(s);
    }
  }

  /** The constant name never holds a separator or a lower-case ASCII letter. */
  lemma SlotAsFieldNameShape(s: string)
    ensures forall x :: 0 <= x < |SlotAsFieldName(s)| ==>
              !IsSeparator(SlotAsFieldName(s)[x]) && !('a' <= SlotAsFieldName(s)[x] <= 'z')
  {
    JoinUpper(JavaSplit(s));
    JoinNoSeparator(JavaSplit(s));
  }

  lemma {:induction false} JoinNoSeparator(ss: seq<string>)
    requires forall k :: 0 <= k < |ss| ==> NoSeparator(ss[k])
    ensures NoSeparator(Join(ss, "_"))
  {
    if |ss| > 1 {
      JoinNoSeparator(ss[1..]);
      var a, b := ss[0] + "_", Join(ss[1..], "_");
      assert forall x :: 0 <= x < |a| ==> (a + b)[x] == a[x];
      assert forall x :: |a| <= x < |a + b| ==> (a + b)[x] == b[x - |a|];
    }
  }

  // ---------------------------------------------------------------------
  // Which overrides a generated presenter class receives
  // ---------------------------------------------------------------------

  const BrixRoute: AnnotationKind := "BrixRoute"
  const BrixSlot: AnnotationKind := "BrixSlot"
  const PermitAll: AnnotationKind := "PermitAll"
  const DenyAll: AnnotationKind := "DenyAll"
  const RolesAllowed: AnnotationKind := "RolesAllowed"

  datatype AuthorizerKind = PermitAllAuthorizer | DenyAllAuthorizer | RolesAllowedAuthorizer

  /** One statement of a generated method body. */
  datatype Statement =
    | ReturnText(text: string)               // return "<text>";
    | ReturnAuthorizer(kind: AuthorizerKind) // return <Kind>Authorizer.INSTANCE;
    | NewRoleSet                             // Set<String> roles = new HashSet<>();
    | AddRole(role: string)                  // roles.add("<role>");
    | ReturnRoles                            // return roles;
    | CallSuper(name: string)                // super.<name>();
    | Call(name: string)                     // <name>();

  /** A generated method: its name and its body. */
  datatype MethodSpec = MethodSpec(name: string, body: seq<Statement>)

  /** The single-string `value()` of a found annotation; null otherwise. */
  function TextOf(v: Option<AnnotationValue>): Option<string> {
    if v.Some? && v.value.Text? then v.value.text else None
  }

  /** The string-array `value()` of a found annotation; null otherwise. */
  function TextsOf(v: Option<AnnotationValue>): Option<seq<string>> {
    if v.Some? && v.value.Texts? then v.value.texts else None
  }

  /** `generateRouteMethod` and `generateSlotMethod`: an override returning
      the annotation's value, added only when the annotation is found on the
      presenter or a superclass and its value is neither null nor blank. */
  function ValueOverride(presenter: TypeElement, a: AnnotationKind, methodName: string): seq<MethodSpec> {
    var value := TextOf(FindClassAnnotation(presenter, a));
    if IsBlank(value) then [] else [MethodSpec(methodName, [ReturnText(value.value)])]
  }

  function RouteMethods(presenter: TypeElement): seq<MethodSpec> {
    ValueOverride(presenter, BrixRoute, "getRoutingPath")
  }

  function SlotMethods(presenter: TypeElement): seq<MethodSpec> {
    ValueOverride(presenter, BrixSlot, "getSlotKey")
  }

  /** The override is emitted exactly when the nearest level of the chain that
      carries the annotation gives it a non-blank value, and it returns that
      value; a blank value nearer the presenter hides any value further up. */
  lemma ValueOverrideRule(presenter: TypeElement, a: AnnotationKind, methodName: string)
    ensures |ValueOverride(presenter, a, methodName)| <= 1
    ensures ValueOverride(presenter, a, methodName) != [] <==>
              exists i :: NearestWith(Chain(presenter), a, i) &&
                !IsBlank(TextOf(Some(Chain(presenter)[i].annotations[a])))
    ensures ValueOverride(presenter, a, methodName) != [] ==>
              exists i :: NearestWith(Chain(presenter), a, i) &&
                ValueOverride(presenter, a, methodName) ==
                  [MethodSpec(methodName, [ReturnText(TextOf(Some(Chain(presenter)[i].annotations[a])).value)])]
  {
    FindClassAnnotationNearest(presenter, a);
    var c := Chain(presenter);
    if FindClassAnnotation(presenter, a).Some? {
      var i :| NearestWith(c, a, i) && FindClassAnnotation(presenter, a).value == c[i].annotations[a];
      forall i' | NearestWith(c, a, i')
        ensures i' == i
      {
        NearestUnique(c, a, i, i');
      }
    }
  }

  /** At most one level is the nearest one. */
  lemma NearestUnique(c: seq<TypeElement>, a: AnnotationKind, i: int, i': int)
    requires NearestWith(c, a, i) && NearestWith(c, a, i')
    ensures i == i'
  {
  }

  function Present(presenter: TypeElement, a: AnnotationKind): bool {
    FindClassAnnotation(presenter, a).Some?
  }

  /** How many of PermitAll, DenyAll and RolesAllowed the presenter carries,
      directly or through a superclass (the `filter(Objects::nonNull).count()`). */
  function AuthorizerCount(presenter: TypeElement): nat {
    (if Present(presenter, PermitAll) then 1 else 0) +
    (if Present(presenter, DenyAll) then 1 else 0) +
    (if Present(presenter, RolesAllowed) then 1 else 0)
  }

  /** The "Only one of [PermitAll, DenyAll, RolesAllowed]" error is reported. */
  predicate ReportsMixed(presenter: TypeElement) {
    AuthorizerCount(presenter) > 1
  }

  /** One `roles.add(role)` per declared role, in declaration order. */
  function RoleStatements(roles: seq<string>): (ss: seq<Statement>)
    ensures |ss| == |roles| && forall k :: 0 <= k < |roles| ==> ss[k] == AddRole(roles[k])
  {
    if roles == [] then [] else [AddRole(roles[0])] + RoleStatements(roles[1..])
  }

  /** The `getRoles` override; a null role array adds no role. */
  function RolesMethod(roles: Option<seq<string>>): MethodSpec {
    MethodSpec("getRoles", [NewRoleSet] + (if roles.Some? then RoleStatements(roles.value) else []) + [ReturnRoles])
  }

  /** The statements of `getAuthorizer`: one return per annotation found, in
      the order PermitAll, DenyAll, RolesAllowed. */
  function AuthorizerReturns(presenter: TypeElement): seq<Statement> {
    (if Present(presenter, PermitAll) then [ReturnAuthorizer(PermitAllAuthorizer)] else []) +
    (if Present(presenter, DenyAll) then [ReturnAuthorizer(DenyAllAuthorizer)] else []) +
    (if Present(presenter, RolesAllowed) then [ReturnAuthorizer(RolesAllowedAuthorizer)] else [])
  }

  /** `generateAuthorizerMethod`: the methods it adds, in the order it adds
      them (`getRoles` inside the RolesAllowed branch, `getAuthorizer` last). */
  function AuthorizerMethods(presenter: TypeElement): seq<MethodSpec> {
    var rolesAllowed := FindClassAnnotation(presenter, RolesAllowed);
    (if rolesAllowed.Some? then [RolesMethod(TextsOf(rolesAllowed))] else []) +
    (if AuthorizerCount(presenter) > 0 then [MethodSpec("getAuthorizer", AuthorizerReturns(presenter))] else [])
  }

  predicate Declares(ms: seq<MethodSpec>, name: string) {
    exists k :: 0 <= k < |ms| && ms[k].name == name
  }

  /** The error is reported exactly when two or more of the three annotations
      are found; `getAuthorizer` is emitted exactly when one or more is, and
      `getRoles` exactly with RolesAllowed. With a single annotation the
      authorizer returned is the one it names, and `getRoles` adds the
      declared roles in order between the set's creation and its return. */
  lemma AuthorizerRules(presenter: TypeElement)
    ensures ReportsMixed(presenter) <==>
              (Present(presenter, PermitAll) && Present(presenter, DenyAll)) ||
              (Present(presenter, PermitAll) && Present(presenter, RolesAllowed)) ||
              (Present(presenter, DenyAll) && Present(presenter, RolesAllowed))
    ensures Declares(AuthorizerMethods(presenter), "getAuthorizer") <==>
              Present(presenter, PermitAll) || Present(presenter, DenyAll) || Present(presenter, RolesAllowed)
    ensures Declares(AuthorizerMethods(presenter), "getRoles") <==> Present(presenter, RolesAllowed)
    ensures AuthorizerCount(presenter) == 1 ==>
              AuthorizerMethods(presenter)[|AuthorizerMethods(presenter)| - 1] ==
                MethodSpec("getAuthorizer",
                  [ReturnAuthorizer(if Present(presenter, PermitAll) then PermitAllAuthorizer
                                    else if Present(presenter, DenyAll) then DenyAllAuthorizer
                                    else RolesAllowedAuthorizer)])
    ensures Present(presenter, RolesAllowed) ==>
              var body := AuthorizerMethods(presenter)[0].body;
              var roles := TextsOf(FindClassAnnotation(presenter, RolesAllowed));
              var n := if roles.Some? then |roles.value| else 0;
              AuthorizerMethods(presenter)[0].name == "getRoles" &&
              |body| == n + 2 && body[0] == NewRoleSet && body[n + 1] == ReturnRoles &&
              forall k :: 0 <= k < n ==> body[k + 1] == AddRole(roles.value[k])
  {
    var ms := AuthorizerMethods(presenter);
    if Present(presenter, RolesAllowed) {
      assert ms[0].name == "getRoles";
    }
    if AuthorizerCount(presenter) > 0 {
      assert ms[|ms| - 1].name == "getAuthorizer";
    }
  }

  /** One `<name>()` call per discovered method, in discovery order. */
  function CallStatements(ms: seq<Element>): (ss: seq<Statement>)
    ensures |ss| == |ms| && forall k :: 0 <= k < |ms| ==> ss[k] == Call(ms[k].name)
  {
    if ms == [] then [] else [Call(ms[0].name)] + CallStatements(ms[1..])
  }

  /** `collectAnnotatedMethods(presenter, builder, annotation, methodName)`:
      when some method of the presenter or its superclasses carries the
      annotation, an override that calls `super` and then each such method. */
  function HookMethods(presenter: TypeElement, a: AnnotationKind, methodName: string): seq<MethodSpec> {
    var found := GetAnnotatedMethods(presenter, a);
    if found == [] then [] else [MethodSpec(methodName, [CallSuper(methodName)] + CallStatements(found))]
  }

  /** The override is emitted exactly when some level below the root declares
      an annotated method; its body calls `super` first and then every
      annotated method, the presenter's own first, each level in declaration
      order. */
  lemma HookRule(presenter: TypeElement, a: AnnotationKind, methodName: string)
    ensures HookMethods(presenter, a, methodName) != [] <==>
              exists i, e :: 0 <= i < |Chain(presenter)| - 1 && e in Chain(presenter)[i].enclosed &&
                IsMethod(e) && a in e.annotations
    ensures HookMethods(presenter, a, methodName) != [] ==>
              var body := HookMethods(presenter, a, methodName)[0].body;
              var found := LevelsMatching(Chain(presenter)[..|Chain(presenter)| - 1], a, IsMethod);
              HookMethods(presenter, a, methodName)[0].name == methodName &&
              |body| == |found| + 1 && body[0] == CallSuper(methodName) &&
              forall k :: 0 <= k < |found| ==> body[k + 1] == Call(found[k].name)
  {
    var found := GetAnnotatedMethods(presenter, a);
    AnnotatedElementsByLevel(presenter, a, IsMethod);
    var c := Chain(presenter);
    if found != [] {
      AnnotatedElementsMembership(presenter, a, IsMethod, found[0]);
      var i :| 0 <= i < |c| - 1 && found[0] in c[i].enclosed;
      assert IsMethod(found[0]) && a in found[0].annotations;
    }
    if exists i, e :: 0 <= i < |c| - 1 && e in c[i].enclosed && IsMethod(e) && a in e.annotations {
      var i, e :| 0 <= i < |c| - 1 && e in c[i].enclosed && IsMethod(e) && a in e.annotations;
      AnnotatedElementsMembership(presenter, a, IsMethod, e);
    }
  }

  lemma RoleStatementsSnoc(roles: seq<string>, role: string)
    ensures RoleStatements(roles + [role]) == RoleStatements(roles) + [AddRole(role)]
  {
  }

  lemma CallStatementsSnoc(ms: seq<Element>, m: Element)
    ensures CallStatements(ms + [m]) == CallStatements(ms) + [Call(m.name)]
  {
  }

  /** `generateAuthorizerMethod`'s `forEach` over the declared roles, adding
      one statement at a time to the `getRoles` builder. */
  method GenerateRolesMethod(roles: Option<seq<string>>) returns (m: MethodSpec)
    ensures m == RolesMethod(roles)
  {
    var body := [NewRoleSet];
    if roles.Some? {
      var rs := roles.value;
      var i := 0;
      while i < |rs|
        invariant 0 <= i <= |rs|
        invariant body == [NewRoleSet] + RoleStatements(rs[..i])
      {
        assert rs[..i + 1] == rs[..i] + [rs[i]];
        RoleStatementsSnoc(rs[..i], rs[i]);
        body := body + [AddRole(rs[i])];
        i := i + 1;
      }
      assert rs[..|rs|] == rs;
    }
    body := body + [ReturnRoles];
    m := MethodSpec("getRoles", body);
  }

  /** `generateAuthorizerMethod`: the methods it adds and whether it reports
      the mixed-annotation error. */
  method GenerateAuthorizerMethod(presenter: TypeElement) returns (added: seq<MethodSpec>, mixed: bool)
    ensures added == AuthorizerMethods(presenter)
    ensures mixed == ReportsMixed(presenter)
  {
    var permitAll := FindClassAnnotation(presenter, PermitAll);
    var denyAll := FindClassAnnotation(presenter, DenyAll);
    var rolesAllowed := FindClassAnnotation(presenter, RolesAllowed);
    var count := 0;
    if permitAll.Some? { count := count + 1; }
    if denyAll.Some? { count := count + 1; }
    if rolesAllowed.Some? { count := count + 1; }
    mixed := count > 1;
    var statements: seq<Statement> := [];
    if permitAll.Some? { statements := statements + [ReturnAuthorizer(PermitAllAuthorizer)]; }
    if denyAll.Some? { statements := statements + [ReturnAuthorizer(DenyAllAuthorizer)]; }
    added := [];
    if rolesAllowed.Some? {
      statements := statements + [ReturnAuthorizer(RolesAllowedAuthorizer)];
      var rolesMethod := GenerateRolesMethod(TextsOf(rolesAllowed));
      added := added + [rolesMethod];
    }
    assert count == AuthorizerCount(presenter);
    assert statements == AuthorizerReturns(presenter);
    if count > 0 {
      added := added + [MethodSpec("getAuthorizer", statements)];
    }
  }

  /** `collectAnnotatedMethods`: the `forEach` over the discovered methods,
      adding one call at a time after the `super` call. */
  method CollectAnnotatedMethods(presenter: TypeElement, a: AnnotationKind, methodName: string)
    returns (added: seq<MethodSpec>)
    ensures added == HookMethods(presenter, a, methodName)
  {
    var found := GetAnnotatedMethods(presenter, a);
    added := [];
    if found != [] {
      var body := [CallSuper(methodName)];
      var i := 0;
      while i < |found|
        invariant 0 <= i <= |found|
        invariant body == [CallSuper(methodName)] + CallStatements(found[..i])
      {
        assert found[..i + 1] == found[..i] + [found[i]];
        CallStatementsSnoc(found[..i], found[i]);
        body := body + [Call(found[i].name)];
        i := i + 1;
      }
      assert found[..|found|] == found;
      added := [MethodSpec(methodName, body)];
    }
  }
}
