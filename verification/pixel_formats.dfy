/**
 * The format catalog of librgb/pixel_formats.py: class attributes naming each
 * pixel format, enumerated by reflection (`dir`) and looked up with `getattr`.
 */
module PixelFormats {
  import opened Base

  /** The formats the class defines, one constructor per distinct attribute. */
  datatype Format =
    | RGB888 | RGB565 | RGBA8888 | RGBA8888i | RGBA8888x | RGBA5658 | RGBA5658i
    | BGR888 | BGR565 | BGRA8888 | BGRA8888i | BGRA8888x | BGRA5658 | BGRA5658i
    | GRAY8

  /** The attribute name of a format. */
  function ShortName(f: Format): string
  {
    match f
    case RGB888 => "RGB888"
    case RGB565 => "RGB565"
    case RGBA8888 => "RGBA8888"
    case RGBA8888i => "RGBA8888i"
    case RGBA8888x => "RGBA8888x"
    case RGBA5658 => "RGBA5658"
    case RGBA5658i => "RGBA5658i"
    case BGR888 => "BGR888"
    case BGR565 => "BGR565"
    case BGRA8888 => "BGRA8888"
    case BGRA8888i => "BGRA8888i"
    case BGRA8888x => "BGRA8888x"
    case BGRA5658 => "BGRA5658"
    case BGRA5658i => "BGRA5658i"
    case GRAY8 => "GRAY8"
  }

  /** The attribute value of a format: the text shown to the user. */
  function DisplayName(f: Format): string
  {
    match f
    case RGB888 => "RGB (8-8-8)"
    case RGB565 => "RGB (5-6-5)"
    case RGBA8888 => "RGBA (8-8-8-8)"
    case RGBA8888i => "RGBA (8-8-8-8, invert alpha)"
    case RGBA8888x => "RGBA (8-8-8-8, ignore alpha)"
    case RGBA5658 => "RGBA (5-6-5-8)"
    case RGBA5658i => "RGBA (5-6-5-8, invert alpha)"
    case BGR888 => "BGR (8-8-8)"
    case BGR565 => "BGR (5-6-5)"
    case BGRA8888 => "BGRA (8-8-8-8)"
    case BGRA8888i => "BGRA (8-8-8-8, invert alpha)"
    case BGRA8888x => "BGRA (8-8-8-8, ignore alpha)"
    case BGRA5658 => "BGRA (5-6-5-8)"
    case BGRA5658i => "BGRA (5-6-5-8, invert alpha)"
    case GRAY8 => "Grayscale (8)"
  }

  /**
   * The format assignments of the class body in source order. `RGBA5658` and
   * `BGRA5658` are assigned twice, with the same value each time.
   */
  function ClassBody(): seq<Format>
  {
    [RGB888, RGB565, RGBA8888, RGBA8888i, RGBA8888x, RGBA5658, RGBA5658i, RGBA5658,
     BGR888, BGR565, BGRA8888, BGRA8888i, BGRA8888x, BGRA5658, BGRA5658i, BGRA5658,
     GRAY8]
  }

  /** The three static methods, which are class attributes too. */
  function MethodNames(): seq<string>
  {
    ["get_short_names", "get_long_names", "from_short_name"]
  }

  /**
   * The attributes a Python 2 new-style class gets from `object` and from its
   * creation. Every one of them contains an underscore.
   */
  function ImplicitNames(): seq<string>
  {
    ["__class__", "__delattr__", "__dict__", "__doc__", "__format__", "__getattribute__",
     "__hash__", "__init__", "__module__", "__new__", "__reduce__", "__reduce_ex__",
     "__repr__", "__setattr__", "__sizeof__", "__str__", "__subclasshook__", "__weakref__"]
  }

  /**
   * The attributes `getattr` finds on the metaclass `type` when the class and
   * `object` lack them: the entries of CPython 2.7's `type.__dict__` that `dir`
   * does not list, less `__abstractmethods__`, whose getter raises
   * `AttributeError` for an ordinary class.
   */
  function TypeNames(): set<string>
  {
    TypeMethodNames() + TypeMemberNames() + TypeLayoutNames() + TypeComparisonNames()
  }

  /** The methods of `type`. */
  function TypeMethodNames(): set<string>
  {
    {"mro", "__subclasses__", "__instancecheck__", "__subclasscheck__", "__call__"}
  }

  /** The descriptors of `type` describing a class's name and bases. */
  function TypeMemberNames(): set<string>
  {
    {"__name__", "__bases__", "__base__", "__mro__", "__flags__"}
  }

  /** The descriptors of `type` describing a class's memory layout. */
  function TypeLayoutNames(): set<string>
  {
    {"__basicsize__", "__itemsize__", "__weakrefoffset__", "__dictoffset__"}
  }

  /** The rich comparisons of `type`. */
  function TypeComparisonNames(): set<string>
  {
    {"__lt__", "__le__", "__eq__", "__ne__", "__gt__", "__ge__"}
  }

  /** What `getattr(PixelFormats, name)` yields. */
  datatype Attribute =
    | FormatValue(text: string)
    | StaticMethod(name: string)
    | Implicit(name: string)
    | TypeAttribute(name: string)

  /** What `getattr` raises for a name the class does not have. */
  datatype AttributeError = AttributeError(name: string)

  /** The attribute names of a list of formats, in the same order. */
  function NamesOf(fs: seq<Format>): (r: seq<string>)
    ensures |r| == |fs|
    ensures forall k :: 0 <= k < |fs| ==> r[k] == ShortName(fs[k])
  {
    seq(|fs|, k requires 0 <= k < |fs| => ShortName(fs[k]))
  }

  /** Every attribute name of the class, duplicates included, in no particular order. */
  function AttributeNames(): seq<string>
  {
    NamesOf(ClassBody()) + MethodNames() + ImplicitNames()
  }

  // ---------------------------------------------------------------------------
  // String order, as Python compares `str` values

  /** `a[i..] < b[i..]`: the first differing code point decides, and a proper prefix comes first. */
  predicate LexLessFrom(a: string, b: string, i: nat)
    decreases |a| - i
  {
    if i >= |a| then i < |b|
    else if i >= |b| then false
    else if a[i] != b[i] then a[i] < b[i]
    else LexLessFrom(a, b, i + 1)
  }

  predicate LexLess(a: string, b: string)
  {
    LexLessFrom(a, b, 0)
  }

  lemma {:induction false} LexLessFromIrreflexive(a: string, i: nat)
    ensures !LexLessFrom(a, a, i)
    decreases |a| - i
  {
    if i < |a| {
      LexLessFromIrreflexive(a, i + 1);
    }
  }

  lemma {:induction false} LexLessFromTransitive(a: string, b: string, c: string, i: nat)
    requires LexLessFrom(a, b, i) && LexLessFrom(b, c, i)
    ensures LexLessFrom(a, c, i)
    decreases |a| - i
  {
    if i < |a| && i < |b| && i < |c| && a[i] == b[i] && b[i] == c[i] {
      LexLessFromTransitive(a, b, c, i + 1);
    }
  }

  lemma {:induction false} LexLessFromTotal(a: string, b: string, i: nat)
    requires i <= |a| && i <= |b| && a[i..] != b[i..]
    ensures LexLessFrom(a, b, i) || LexLessFrom(b, a, i)
    decreases |a| - i
  {
    if i < |a| && i < |b| && a[i] == b[i] {
      assert a[i..] == [a[i]] + a[i + 1..] && b[i..] == [b[i]] + b[i + 1..];
      LexLessFromTotal(a, b, i + 1);
    }
  }

  /** Python's string order is a strict total order. */
  lemma LexLessIsStrictTotalOrder()
    ensures forall a :: !LexLess(a, a)
    ensures forall a, b, c :: LexLess(a, b) && LexLess(b, c) ==> LexLess(a, c)
    ensures forall a, b :: a != b ==> LexLess(a, b) || LexLess(b, a)
  {
    forall a ensures !LexLess(a, a) {
      LexLessFromIrreflexive(a, 0);
    }
    forall a, b, c | LexLess(a, b) && LexLess(b, c) ensures LexLess(a, c) {
      LexLessFromTransitive(a, b, c, 0);
    }
    forall a, b | a != b ensures LexLess(a, b) || LexLess(b, a) {
      assert a[0..] == a && b[0..] == b;
      LexLessFromTotal(a, b, 0);
    }
  }

  /** Each name comes before every later one. */
  ghost predicate StrictlySorted(s: seq<string>)
  {
    forall i, j :: 0 <= i < j < |s| ==> LexLess(s[i], s[j])
  }

  // ---------------------------------------------------------------------------
  // dir(): the distinct attribute names in sorted order

  /** Inserts `x` into a sorted list of distinct names, unless it is already there. */
  function Insert(x: string, s: seq<string>): (r: seq<string>)
    requires StrictlySorted(s)
    ensures StrictlySorted(r)
    ensures forall y :: y in r <==> y in s || y == x
  {
    LexLessIsStrictTotalOrder();
    if s == [] then [x]
    else if x == s[0] then s
    else if LexLess(x, s[0]) then [x] + s
    else
      var t := Insert(x, s[1..]);
      assert forall k :: 0 <= k < |t| ==> LexLess(s[0], t[k]) by {
        forall k | 0 <= k < |t| ensures LexLess(s[0], t[k]) {
          assert t[k] in t;
        }
      }
      [s[0]] + t
  }

  /** The distinct elements of `names`, sorted. */
  function SortDistinct(names: seq<string>): (r: seq<string>)
    ensures StrictlySorted(r)
    ensures forall y :: y in r <==> y in names
  {
    if names == [] then []
    else
      var init := names[..|names| - 1];
      assert names == init + [names[|names| - 1]];
      Insert(names[|names| - 1], SortDistinct(init))
  }

  /** The first name of a sorted list comes before every other name in it. */
  lemma SortedHead(s: seq<string>, y: string)
    requires StrictlySorted(s) && y in s
    ensures y == s[0] || LexLess(s[0], y)
  {
  }

  /** A sorted list holds each name at one position only. */
  lemma SortedElementsDistinct(s: seq<string>, i: nat, j: nat)
    requires StrictlySorted(s) && i < |s| && j < |s| && s[i] == s[j]
    ensures i == j
  {
    LexLessIsStrictTotalOrder();
  }

  /** Two sorted lists of distinct names with the same elements are the same list. */
  lemma {:induction false} SortedIsUnique(a: seq<string>, b: seq<string>)
    requires StrictlySorted(a) && StrictlySorted(b)
    requires forall y :: y in a <==> y in b
    ensures a == b
    decreases |a|
  {
    LexLessIsStrictTotalOrder();
    assert a != [] ==> a[0] in b;
    assert b != [] ==> b[0] in a;
    if a != [] && b != [] {
      SortedHead(a, b[0]);
      SortedHead(b, a[0]);
      assert a[0] == b[0];
      forall y ensures y in a[1..] <==> y in b[1..] {
        if y in a[1..] {
          var k :| 1 <= k < |a| && a[k] == y;
          assert y != a[0];
          assert y in b;
        }
        if y in b[1..] {
          var k :| 1 <= k < |b| && b[k] == y;
          assert y != b[0];
          assert y in a;
        }
      }
      SortedIsUnique(a[1..], b[1..]);
    }
  }

  /** `dir(PixelFormats)`: every attribute name once, in string order. */
  function Dir(): (r: seq<string>)
    ensures StrictlySorted(r)
    ensures forall y :: y in r <==> y in AttributeNames()
  {
    SortDistinct(AttributeNames())
  }

  /** The names `get_short_names` keeps: those with no underscore. */
  predicate IsShortName(name: string)
  {
    '_' !in name
  }

  /** The list comprehension `[v for v in names if not '_' in v]`. */
  function KeepShortNames(names: seq<string>): (r: seq<string>)
    ensures forall y :: y in r <==> y in names && IsShortName(y)
    ensures StrictlySorted(names) ==> StrictlySorted(r)
  {
    if names == [] then []
    else
      var rest := KeepShortNames(names[1..]);
      assert forall y :: y in names <==> y == names[0] || y in names[1..];
      if IsShortName(names[0]) then
        assert StrictlySorted(names) ==> forall k :: 0 <= k < |rest| ==> LexLess(names[0], rest[k]) by {
          if StrictlySorted(names) {
            forall k | 0 <= k < |rest| ensures LexLess(names[0], rest[k]) {
              assert rest[k] in names[1..];
            }
          }
        }
        [names[0]] + rest
      else rest
  }

  /** `get_short_names()`. */
  function GetShortNames(): seq<string>
  {
    KeepShortNames(Dir())
  }

  /** The short names in Python's string order, as `dir` lists them. */
  function SortedFormats(): seq<Format>
  {
    [BGR565, BGR888, BGRA5658, BGRA5658i, BGRA8888, BGRA8888i, BGRA8888x, GRAY8,
     RGB565, RGB888, RGBA5658, RGBA5658i, RGBA8888, RGBA8888i, RGBA8888x]
  }

  /** Sortedness of a list follows from sortedness of each neighbouring pair. */
  lemma {:induction false} NeighboursSorted(s: seq<string>)
    requires forall i :: 0 <= i < |s| - 1 ==> LexLess(s[i], s[i + 1])
    ensures StrictlySorted(s)
    decreases |s|
  {
    if |s| > 1 {
      NeighboursSorted(s[1..]);
      LexLessIsStrictTotalOrder();
      forall j | 1 <= j < |s| ensures LexLess(s[0], s[j]) {
        if j > 1 {
          assert LexLess(s[1], s[j]) by { assert s[1] == s[1..][0] && s[j] == s[1..][j - 1]; }
        }
      }
    }
  }

  /** The short names of `SortedFormats()` are in string order. */
  lemma SortedFormatNamesAreSorted()
    ensures StrictlySorted(NamesOf(SortedFormats()))
  {
    var s := NamesOf(SortedFormats());
    assert LexLess("BGR565", "BGR888");
    assert LexLess("BGR888", "BGRA5658");
    assert LexLess("BGRA5658", "BGRA5658i");
    assert LexLess("BGRA5658i", "BGRA8888");
    assert LexLess("BGRA8888", "BGRA8888i");
    assert LexLess("BGRA8888i", "BGRA8888x");
    assert LexLess("BGRA8888x", "GRAY8");
    assert LexLess("GRAY8", "RGB565");
    assert LexLess("RGB565", "RGB888");
    assert LexLess("RGB888", "RGBA5658");
    assert LexLess("RGBA5658", "RGBA5658i");
    assert LexLess("RGBA5658i", "RGBA8888");
    assert LexLess("RGBA8888", "RGBA8888i");
    assert LexLess("RGBA8888i", "RGBA8888x");
    NeighboursSorted(s);
  }

  /** The class body assigns every format. */
  lemma AssignedInClassBody(f: Format)
    ensures f in ClassBody()
  {
    match f
    case RGB888 => case RGB565 => case RGBA8888 => case RGBA8888i => case RGBA8888x =>
    case RGBA5658 => case RGBA5658i => case BGR888 => case BGR565 => case BGRA8888 =>
    case BGRA8888i => case BGRA8888x => case BGRA5658 => case BGRA5658i => case GRAY8 =>
  }

  /** The sorted list holds every format. */
  lemma ListedInSortedFormats(f: Format)
    ensures f in SortedFormats()
  {
    match f
    case RGB888 => case RGB565 => case RGBA8888 => case RGBA8888i => case RGBA8888x =>
    case RGBA5658 => case RGBA5658i => case BGR888 => case BGR565 => case BGRA8888 =>
    case BGRA8888i => case BGRA8888x => case BGRA5658 => case BGRA5658i => case GRAY8 =>
  }

  /** No format's attribute name contains an underscore. */
  lemma FormatNamesAreShort(f: Format)
    ensures IsShortName(ShortName(f))
  {
    match f
    case RGB888 => case RGB565 => case RGBA8888 => case RGBA8888i => case RGBA8888x =>
    case RGBA5658 => case RGBA5658i => case BGR888 => case BGR565 => case BGRA8888 =>
    case BGRA8888i => case BGRA8888x => case BGRA5658 => case BGRA5658i => case GRAY8 =>
  }

  /** The static methods and the implicit attributes all have an underscore in their names. */
  lemma ExtraNamesAreNotShort(y: string)
    requires y in MethodNames() || y in ImplicitNames()
    ensures !IsShortName(y)
  {
  }

  /** Every format's attribute name is an attribute name of the class. */
  lemma FormatNameIsAttribute(f: Format)
    ensures ShortName(f) in AttributeNames()
  {
    var body := NamesOf(ClassBody());
    AssignedInClassBody(f);
    var i :| 0 <= i < |ClassBody()| && ClassBody()[i] == f;
    assert ShortName(f) == body[i];
    assert AttributeNames()[i] == body[i];
  }

  /** An attribute name without an underscore is the name of a format. */
  lemma ShortAttributeIsFormatName(y: string)
    requires y in AttributeNames() && IsShortName(y)
    ensures exists f :: y == ShortName(f)
  {
    var body := NamesOf(ClassBody());
    if y in body {
      var i :| 0 <= i < |body| && body[i] == y;
      assert y == ShortName(ClassBody()[i]);
    } else {
      assert y in MethodNames() || y in ImplicitNames();
      ExtraNamesAreNotShort(y);
    }
  }

  /**
   * `get_short_names()` lists the fifteen formats once each, in string order; the
   * doubly assigned `RGBA5658` and `BGRA5658` appear once.
   */
  lemma GetShortNamesValue()
    ensures GetShortNames() == NamesOf(SortedFormats())
    ensures |GetShortNames()| == 15
  {
    var expected := NamesOf(SortedFormats());
    SortedFormatNamesAreSorted();
    forall y ensures y in GetShortNames() <==> y in expected {
      if y in GetShortNames() {
        ShortAttributeIsFormatName(y);
      }
      if f :| y == ShortName(f) {
        FormatNameIsAttribute(f);
        FormatNamesAreShort(f);
        ListedInSortedFormats(f);
        var i :| 0 <= i < 15 && SortedFormats()[i] == f;
        assert expected[i] == y;
      }
      if y in expected {
        var i :| 0 <= i < 15 && expected[i] == y;
        assert y == ShortName(SortedFormats()[i]);
      }
    }
    SortedIsUnique(GetShortNames(), expected);
  }

  // ---------------------------------------------------------------------------
  // getattr lookups

  /**
   * `from_short_name(text)`, that is `getattr(PixelFormats, text)`: the class's
   * own attributes and those of `object`, then those of the metaclass `type`.
   */
  function FromShortName(text: string): (r: Result<Attribute, AttributeError>)
    ensures r.Err? ==> r == Err(AttributeError(text))
    ensures r.Ok? && !r.value.FormatValue? ==> r.value.name == text
  {
    match FormatNamed(text)
    case Some(f) => Ok(FormatValue(DisplayName(f)))
    case None =>
      if text in MethodNames() then Ok(StaticMethod(text))
      else if text in ImplicitNames() then Ok(Implicit(text))
      else if text in TypeNames() then Ok(TypeAttribute(text))
      else Err(AttributeError(text))
  }

  /** The format whose attribute name is `text`, `None` when no format has it. */
  function FormatNamed(text: string): (r: Option<Format>)
    ensures r.Some? ==> ShortName(r.value) == text
  {
    match text
    case "RGB888" => Some(RGB888)
    case "RGB565" => Some(RGB565)
    case "RGBA8888" => Some(RGBA8888)
    case "RGBA8888i" => Some(RGBA8888i)
    case "RGBA8888x" => Some(RGBA8888x)
    case "RGBA5658" => Some(RGBA5658)
    case "RGBA5658i" => Some(RGBA5658i)
    case "BGR888" => Some(BGR888)
    case "BGR565" => Some(BGR565)
    case "BGRA8888" => Some(BGRA8888)
    case "BGRA8888i" => Some(BGRA8888i)
    case "BGRA8888x" => Some(BGRA8888x)
    case "BGRA5658" => Some(BGRA5658)
    case "BGRA5658i" => Some(BGRA5658i)
    case "GRAY8" => Some(GRAY8)
    case _ => None
  }

  /** The names of the RGB formats find their format. */
  lemma FormatNamedRgb(f: Format)
    requires f in {RGB888, RGB565, RGBA8888, RGBA8888i}
    ensures FormatNamed(ShortName(f)) == Some(f)
  {
  }

  /** The names of the RGB formats with a changed alpha find their format. */
  lemma FormatNamedRgbAlpha(f: Format)
    requires f in {RGBA8888x, RGBA5658, RGBA5658i}
    ensures FormatNamed(ShortName(f)) == Some(f)
  {
  }

  /** The names of the BGR formats find their format. */
  lemma FormatNamedBgr(f: Format)
    requires f in {BGR888, BGR565, BGRA8888, BGRA8888i}
    ensures FormatNamed(ShortName(f)) == Some(f)
  {
  }

  /** The names of the BGR formats with a changed alpha and of grayscale find their format. */
  lemma FormatNamedBgrAlpha(f: Format)
    requires f in {BGRA8888x, BGRA5658, BGRA5658i, GRAY8}
    ensures FormatNamed(ShortName(f)) == Some(f)
  {
  }

  /** Every format is found by its attribute name. */
  lemma FormatNamedOfShortName(f: Format)
    ensures FormatNamed(ShortName(f)) == Some(f)
  {
    match f
    case RGB888 | RGB565 | RGBA8888 | RGBA8888i => FormatNamedRgb(f);
    case RGBA8888x | RGBA5658 | RGBA5658i => FormatNamedRgbAlpha(f);
    case BGR888 | BGR565 | BGRA8888 | BGRA8888i => FormatNamedBgr(f);
    case BGRA8888x | BGRA5658 | BGRA5658i | GRAY8 => FormatNamedBgrAlpha(f);
  }

  /** Looking up a format's attribute name yields its display name. */
  lemma FromShortNameOfFormat(f: Format)
    ensures FromShortName(ShortName(f)) == Ok(FormatValue(DisplayName(f)))
  {
    FormatNamedOfShortName(f);
  }

  /** A failed lookup was for no format, static method, implicit or metaclass attribute. */
  lemma ErrorMeansNoSuchName(text: string)
    requires FromShortName(text).Err?
    ensures forall f :: text != ShortName(f)
    ensures text !in MethodNames() && text !in ImplicitNames() && text !in TypeNames()
  {
    forall f ensures text != ShortName(f) {
      FormatNamedOfShortName(f);
    }
  }

  /** A lookup for no format, static method, implicit or metaclass attribute fails. */
  lemma NoSuchNameMeansError(text: string)
    requires forall f :: text != ShortName(f)
    requires text !in MethodNames() && text !in ImplicitNames() && text !in TypeNames()
    ensures FromShortName(text) == Err(AttributeError(text))
  {
  }

  /** The attribute names are the format names, the static methods and the implicit attributes. */
  lemma AttributeNamesCases(text: string)
    ensures text in AttributeNames() <==>
      (exists f :: text == ShortName(f)) || text in MethodNames() || text in ImplicitNames()
  {
    var body := NamesOf(ClassBody());
    assert AttributeNames() == body + (MethodNames() + ImplicitNames());
    if text in body {
      var i :| 0 <= i < |body| && body[i] == text;
      assert text == ShortName(ClassBody()[i]);
    }
    if f :| text == ShortName(f) {
      FormatNameIsAttribute(f);
    }
  }

  /** No format name starts with `m`. */
  lemma ShortNameInitial(f: Format)
    ensures |ShortName(f)| > 0 && ShortName(f)[0] != 'm'
  {
  }

  /** Every metaclass attribute but `mro` contains an underscore. */
  lemma TypeNamesShape(text: string)
    requires text in TypeNames()
    ensures text == "mro" || !IsShortName(text)
  {
  }

  /** The methods of `type` are neither static methods nor implicit attributes. */
  lemma TypeMethodsAreNotExtraNames(text: string)
    requires text in TypeMethodNames()
    ensures text !in MethodNames() && text !in ImplicitNames()
  {
  }

  /** The name and base descriptors of `type` are neither static methods nor implicit attributes. */
  lemma TypeMembersAreNotExtraNames(text: string)
    requires text in TypeMemberNames()
    ensures text !in MethodNames() && text !in ImplicitNames()
  {
  }

  /** The layout descriptors of `type` are neither static methods nor implicit attributes. */
  lemma TypeLayoutIsNotExtraNames(text: string)
    requires text in TypeLayoutNames()
    ensures text !in MethodNames() && text !in ImplicitNames()
  {
  }

  /** The rich comparisons of `type` are neither static methods nor implicit attributes. */
  lemma TypeComparisonsAreNotExtraNames(text: string)
    requires text in TypeComparisonNames()
    ensures text !in MethodNames() && text !in ImplicitNames()
  {
  }

  /** The metaclass attributes are neither static methods nor implicit attributes. */
  lemma TypeNamesAreNotExtraNames(text: string)
    requires text in TypeNames()
    ensures text !in MethodNames() && text !in ImplicitNames()
  {
    if text in TypeMethodNames() {
      TypeMethodsAreNotExtraNames(text);
    } else if text in TypeMemberNames() {
      TypeMembersAreNotExtraNames(text);
    } else if text in TypeLayoutNames() {
      TypeLayoutIsNotExtraNames(text);
    } else {
      TypeComparisonsAreNotExtraNames(text);
    }
  }

  /** No metaclass attribute is a format name, a static method or an implicit attribute. */
  lemma TypeNamesAreNotClassNames(text: string)
    requires text in TypeNames()
    ensures forall f :: text != ShortName(f)
    ensures text !in MethodNames() && text !in ImplicitNames()
  {
    TypeNamesShape(text);
    TypeNamesAreNotExtraNames(text);
    forall f ensures text != ShortName(f) {
      FormatNamesAreShort(f);
      ShortNameInitial(f);
    }
  }

  /** `dir` does not list the metaclass attributes. */
  lemma TypeNamesAreNotListed(text: string)
    requires text in TypeNames()
    ensures text !in AttributeNames()
  {
    TypeNamesAreNotClassNames(text);
    AttributeNamesCases(text);
  }

  /** `getattr` finds a metaclass attribute although `dir` does not list it. */
  lemma FromShortNameOfTypeName(text: string)
    requires text in TypeNames()
    ensures FromShortName(text) == Ok(TypeAttribute(text))
  {
    TypeNamesAreNotClassNames(text);
  }

  /**
   * `from_short_name` raises `AttributeError` exactly for the names that are no
   * attribute of the class and no attribute of its metaclass.
   */
  lemma FromShortNameFails(text: string)
    ensures FromShortName(text).Err? <==> text !in AttributeNames() && text !in TypeNames()
    ensures FromShortName(text).Err? ==> FromShortName(text) == Err(AttributeError(text))
  {
    AttributeNamesCases(text);
    if FromShortName(text).Err? {
      ErrorMeansNoSuchName(text);
      NoSuchNameMeansError(text);
    }
    if text !in AttributeNames() && text !in TypeNames() {
      NoSuchNameMeansError(text);
    }
  }

  /** The display names of a list of format attribute names. */
  function LongNamesOf(names: seq<string>): (r: seq<string>)
    requires forall k :: 0 <= k < |names| ==> FromShortName(names[k]).Ok? && FromShortName(names[k]).value.FormatValue?
    ensures |r| == |names|
    ensures forall k :: 0 <= k < |names| ==> FromShortName(names[k]) == Ok(FormatValue(r[k]))
  {
    if names == [] then []
    else [FromShortName(names[0]).value.text] + LongNamesOf(names[1..])
  }

  /** `get_long_names()`: `from_short_name` of each short name, in the same order. */
  function GetLongNames(): (r: seq<string>)
    ensures |r| == |GetShortNames()|
    ensures forall k :: 0 <= k < |r| ==> FromShortName(GetShortNames()[k]) == Ok(FormatValue(r[k]))
  {
    ShortNamesAreFormats();
    LongNamesOf(GetShortNames())
  }

  /** Every name `get_short_names` lists looks up to the display name of its format. */
  lemma ShortNamesAreFormats()
    ensures |GetShortNames()| == |SortedFormats()|
    ensures forall k :: 0 <= k < |SortedFormats()| ==>
      FromShortName(GetShortNames()[k]) == Ok(FormatValue(DisplayName(SortedFormats()[k])))
  {
    GetShortNamesValue();
    forall k | 0 <= k < |SortedFormats()|
      ensures FromShortName(GetShortNames()[k]) == Ok(FormatValue(DisplayName(SortedFormats()[k])))
    {
      FromShortNameOfFormat(SortedFormats()[k]);
    }
  }

  /** Different formats have different display names. */
  lemma DisplayNameInjective(f: Format, g: Format)
    ensures DisplayName(f) == DisplayName(g) ==> f == g
  {
  }

  /**
   * The display names listed by `get_long_names` are pairwise distinct, so the
   * position of a display name in that list gives back its short name.
   */
  lemma LongNamesDistinct(i: nat, j: nat)
    requires i < |GetLongNames()| && j < |GetLongNames()|
    requires GetLongNames()[i] == GetLongNames()[j]
    ensures i == j && GetShortNames()[i] == GetShortNames()[j]
  {
    GetShortNamesValue();
    var fi, fj := SortedFormats()[i], SortedFormats()[j];
    FromShortNameOfFormat(fi);
    FromShortNameOfFormat(fj);
    DisplayNameInjective(fi, fj);
    assert GetShortNames()[i] == ShortName(fi) == ShortName(fj) == GetShortNames()[j];
    SortedElementsDistinct(GetShortNames(), i, j);
  }
}
