/**
 * The font-size configuration of the plotting helpers: three ordered
 * character sizes, the table binding each plot element to a size name (or,
 * for `latex`, to `true`/`false`), and the plotting library's parameters
 * those bindings are written to.
 */
module Plots {

  import opened Wrappers
  import Text
  import Decimal

  // ---------------------------------------------------------------------
  // Arguments and names
  // ---------------------------------------------------------------------

  /** An argument whose type the functions inspect at run time: a string or an integer. */
  datatype Arg = Str(s: string) | Int(i: int)

  /** `if type(x) == str: x = x.lower().strip()`: strings are normalised, anything else is kept. */
  function NormalizeArg(a: Arg): (r: Arg)
    ensures r.Str? <==> a.Str?
  {
    if a.Str? then Str(Text.Normalize(a.s)) else a
  }

  /** Normalising twice is normalising once. */
  lemma NormalizeArgIdempotent(a: Arg)
    ensures NormalizeArg(NormalizeArg(a)) == NormalizeArg(a)
  {
    if a.Str? {
      Text.NormalizeIdempotent(a.s);
    }
  }

  /** `get_size` normalises its argument again, to no effect. */
  lemma SizeForNormalized(a: Arg, small: int, medium: int, big: int)
    ensures SizeFor(NormalizeArg(a), small, medium, big) == SizeFor(a, small, medium, big)
  {
    NormalizeArgIdempotent(a);
  }

  /** `int(value)`: an integer as it is, a string parsed as a decimal integer, `None` for the `ValueError`. */
  function IntValue(a: Arg): (r: Option<int>)
    ensures a.Int? ==> r == Some(a.i)
    ensures a.Str? ==> (r.Some? <==> Decimal.IsIntLiteral(Text.Strip(a.s)))
  {
    match a
    case Int(i) => Some(i)
    case Str(s) => Decimal.ParseInt(s)
  }

  datatype SizeName = Small | Medium | Big

  /** The size a normalised name denotes. */
  function SizeNamed(s: string): Option<SizeName>
  {
    if s == "small" then Some(Small)
    else if s == "medium" then Some(Medium)
    else if s == "big" then Some(Big)
    else None
  }

  /** The size a name denotes once normalised; `None` for any other name or a non-string. */
  function SizeNameOf(a: Arg): Option<SizeName>
  {
    if a.Str? then SizeNamed(Text.Normalize(a.s)) else None
  }

  /** The plot elements whose font size (or, for `Latex`, text rendering) is configurable. */
  datatype Dimension = Font | AxesTitle | AxesLabel | XTick | YTick | LegendFont | LegendTitle | Title | Latex

  /** The key of an element in the bindings table. */
  function DimensionName(d: Dimension): string
  {
    match d
    case Font => "font"
    case AxesTitle => "axes title"
    case AxesLabel => "axes label"
    case XTick => "xtick"
    case YTick => "ytick"
    case LegendFont => "legend font"
    case LegendTitle => "legend title"
    case Title => "title"
    case Latex => "latex"
  }

  /** The element a normalised name denotes. */
  function DimensionNamed(s: string): Option<Dimension>
  {
    if s == "font" then Some(Font)
    else if s == "axes title" then Some(AxesTitle)
    else if s == "axes label" then Some(AxesLabel)
    else if s == "xtick" then Some(XTick)
    else if s == "ytick" then Some(YTick)
    else if s == "legend font" then Some(LegendFont)
    else if s == "legend title" then Some(LegendTitle)
    else if s == "title" then Some(Title)
    else if s == "latex" then Some(Latex)
    else None
  }

  /** The element a name denotes once normalised; `None` for any other name or a non-string. */
  function DimensionOf(a: Arg): Option<Dimension>
  {
    if a.Str? then DimensionNamed(Text.Normalize(a.s)) else None
  }

  /** The parameter of the plotting library that holds an element's font size. */
  function RcKey(d: Dimension): string
  {
    match d
    case Font => "font.size"
    case AxesTitle => "axes.titlesize"
    case AxesLabel => "axes.labelsize"
    case XTick => "xtick.labelsize"
    case YTick => "ytick.labelsize"
    case LegendFont => "legend.fontsize"
    case LegendTitle => "legend.title_fontsize"
    case Title => "figure.titlesize"
    case Latex => "text.usetex"
  }

  /** The `latex` setting a normalised value denotes: `true` or `false`, nothing else. */
  function FlagNamed(s: string): Option<bool>
  {
    if s == "true" then Some(true) else if s == "false" then Some(false) else None
  }

  /** The `latex` setting a value denotes once normalised. */
  function FlagOf(a: Arg): Option<bool>
  {
    if a.Str? then FlagNamed(Text.Normalize(a.s)) else None
  }

  /** The names of every element, in the order of the bindings table. */
  const DimensionOrder: seq<Dimension> := [Font, AxesTitle, AxesLabel, XTick, YTick, LegendFont, LegendTitle, Title, Latex]

  /** The bindings the module starts with, keyed by the element each key names. */
  const DefaultDimensions: map<Dimension, string> := map[
    Font := "small", AxesTitle := "big", AxesLabel := "medium", XTick := "medium",
    YTick := "medium", LegendFont := "medium", LegendTitle := "medium", Title := "big",
    Latex := "false"]

  // ---------------------------------------------------------------------
  // Sizes, bindings and their updates as values
  // ---------------------------------------------------------------------

  /** `get_size` for the sizes `small`, `medium`, `big`: `None` stands for the `ValueError`. */
  function SizeFor(size: Arg, small: int, medium: int, big: int): Option<int>
  {
    match SizeNameOf(size)
    case None => None
    case Some(Small) => Some(small)
    case Some(Medium) => Some(medium)
    case Some(Big) => Some(big)
  }

  /** The three sizes are ordered. */
  predicate Ordered(small: int, medium: int, big: int)
  {
    1 <= small < medium < big
  }

  /**
   * `set_size` on the sizes alone: the value must convert to an integer, the
   * name must be a size, and the setter of that size must accept the value.
   */
  function SizeUpdate(small: int, medium: int, big: int, size: Arg, value: Arg): (r: Option<(int, int, int)>)
    ensures r.Some? ==>
      IntValue(value).Some? && SizeNameOf(size).Some? &&
      r.value == WithSize(small, medium, big, SizeNameOf(size).value, IntValue(value).value)
    ensures Ordered(small, medium, big) && r.Some? ==> Ordered(r.value.0, r.value.1, r.value.2)
  {
    match IntValue(value)
    case None => None
    case Some(v) =>
      match SizeNameOf(size)
      case None => None
      case Some(Small) => if v >= medium || v < 1 then None else Some((v, medium, big))
      case Some(Medium) => if v >= big || v <= small then None else Some((small, v, big))
      case Some(Big) => if v <= medium then None else Some((small, medium, v))
  }

  /** A binding `value` is one `_update_dimension` accepts for element `d`. */
  predicate Binds(d: Dimension, value: string)
  {
    if d == Latex then FlagOf(Str(value)).Some? else SizeNameOf(Str(value)).Some?
  }

  /** The bindings table has exactly the nine keys, each bound to a value its element accepts. */
  predicate DimensionsValid(dims: map<Dimension, string>)
  {
    forall d: Dimension :: d in dims && Binds(d, dims[d])
  }

  /** The parameters written by `_update_dimension`: new size parameters and `usetex`, or `None` when it returns `False`. */
  function DimensionUpdate(dimension: Arg, size: Arg, small: int, medium: int, big: int, rc: map<string, int>, usetex: bool)
    : (r: Option<(map<string, int>, bool)>)
    ensures r.Some? <==>
      DimensionOf(dimension).Some? &&
      if DimensionOf(dimension).value == Latex then FlagOf(size).Some? else SizeNameOf(size).Some?
    ensures r.Some? ==> dimension.Str? && size.Str?
    ensures r.Some? && DimensionOf(dimension).value == Latex ==> r.value == (rc, FlagOf(size).value)
    ensures r.Some? && DimensionOf(dimension).value != Latex ==>
      r.value.1 == usetex && RcKey(DimensionOf(dimension).value) in r.value.0 &&
      Some(r.value.0[RcKey(DimensionOf(dimension).value)]) == SizeFor(size, small, medium, big)
  {
    match DimensionOf(dimension)
    case None => None
    case Some(d) =>
      if d == Latex then
        match FlagOf(size)
        case None => None
        case Some(f) => Some((rc, f))
      else
        match SizeFor(size, small, medium, big)
        case None => None
        case Some(v) => Some((rc[RcKey(d) := v], usetex))
  }

  /** The parameters after the binding of element `d` is applied, failures leaving them as they are. */
  function ApplyBinding(state: (map<string, int>, bool), d: Dimension, dims: map<Dimension, string>, small: int, medium: int, big: int)
    : (map<string, int>, bool)
  {
    if d !in dims then state
    else
      match DimensionUpdate(Str(DimensionName(d)), Str(dims[d]), small, medium, big, state.0, state.1)
      case None => state
      case Some(next) => next
  }

  /** The parameters after the bindings of `ds` are applied one after the other. */
  function ApplyBindings(state: (map<string, int>, bool), ds: seq<Dimension>, dims: map<Dimension, string>, small: int, medium: int, big: int)
    : (map<string, int>, bool)
    decreases |ds|
  {
    if |ds| == 0 then state
    else ApplyBinding(ApplyBindings(state, ds[..|ds| - 1], dims, small, medium, big), ds[|ds| - 1], dims, small, medium, big)
  }

  /** Element `d`'s parameter holds the value its binding denotes. */
  predicate SyncedOn(d: Dimension, rc: map<string, int>, usetex: bool, dims: map<Dimension, string>, small: int, medium: int, big: int)
  {
    d in dims &&
    if d == Latex then FlagOf(Str(dims[d])) == Some(usetex)
    else RcKey(d) in rc && SizeFor(Str(dims[d]), small, medium, big) == Some(rc[RcKey(d)])
  }

  /** Every element's parameter holds the value its binding denotes. */
  predicate InSync(rc: map<string, int>, usetex: bool, dims: map<Dimension, string>, small: int, medium: int, big: int)
  {
    forall d: Dimension :: SyncedOn(d, rc, usetex, dims, small, medium, big)
  }

  /** `_get_label`: the label at `index`, or `None` when there are no labels or too few. */
  function GetLabel(labels: Option<seq<string>>, index: nat): (r: Option<string>)
    ensures r.Some? <==> labels.Some? && index < |labels.value|
    ensures r.Some? ==> r.value == labels.value[index]
  {
    if labels.None? then None
    else if index < |labels.value| then Some(labels.value[index])
    else None
  }

  // ---------------------------------------------------------------------
  // The state
  // ---------------------------------------------------------------------

  /** The character sizes: `1 <= small < medium < big` is kept by every setter. */
  class CharSize {
    var small: int
    var medium: int
    var big: int

    predicate Valid()
      reads this
    {
      Ordered(small, medium, big)
    }

    constructor ()
      ensures small == 10 && medium == 15 && big == 20
      ensures Valid()
    {
      small := 10;
      medium := 15;
      big := 20;
    }

    /** The `small_size` setter: refuses a value below 1 or not below the medium size. */
    method SetSmall(value: int) returns (ok: bool)
      modifies this
      ensures ok <==> 1 <= value < old(medium)
      ensures small == (if ok then value else old(small)) && medium == old(medium) && big == old(big)
      ensures old(Valid()) ==> Valid()
    {
      if value >= medium || value < 1 {
        return false;
      }
      small := value;
      ok := true;
    }

    /** The `medium_size` setter: refuses a value not strictly between the small and the big size. */
    method SetMedium(value: int) returns (ok: bool)
      modifies this
      ensures ok <==> old(small) < value < old(big)
      ensures small == old(small) && medium == (if ok then value else old(medium)) && big == old(big)
      ensures old(Valid()) ==> Valid()
    {
      if value >= big || value <= small {
        return false;
      }
      medium := value;
      ok := true;
    }

    /** The `big_size` setter: refuses a value not above the medium size. */
    method SetBig(value: int) returns (ok: bool)
      modifies this
      ensures ok <==> value > old(medium)
      ensures small == old(small) && medium == old(medium) && big == (if ok then value else old(big))
      ensures old(Valid()) ==> Valid()
    {
      if value <= medium {
        return false;
      }
      big := value;
      ok := true;
    }
  }

  /** The module's state: the sizes, the bindings table and the plotting library's parameters. */
  class PlotConfig {
    const cs: CharSize
    var dimensions: map<Dimension, string>
    var rc: map<string, int>
    var usetex: bool

    predicate Valid()
      reads this, cs
    {
      cs.Valid() && DimensionsValid(dimensions)
    }

    /** The plotting library's parameters agree with the bindings table and the sizes. */
    predicate Synced()
      reads this, cs
    {
      InSync(rc, usetex, dimensions, cs.small, cs.medium, cs.big)
    }

    /**
     * The module at import: sizes 10/15/20, the default bindings table, and
     * the plotting library's parameters `rc0` and `usetex0` with every
     * default binding applied to them by the import-time `update_dimensions()`.
     */
    constructor (rc0: map<string, int>, usetex0: bool)
      ensures fresh(cs) && cs.small == 10 && cs.medium == 15 && cs.big == 20
      ensures dimensions == DefaultDimensions
      ensures (rc, usetex) == ApplyBindings((rc0, usetex0), DimensionOrder, dimensions, cs.small, cs.medium, cs.big)
      ensures !usetex && forall d: Dimension :: d != Latex ==> RcKey(d) in rc && rc[RcKey(d)] == DefaultSize(d, cs.small, cs.medium, cs.big)
      ensures Valid() && Synced()
    {
      cs := new CharSize();
      dimensions := DefaultDimensions;
      rc := rc0;
      usetex := usetex0;
      new;
      DefaultDimensionsValid();
      UpdateDimensions();
      UpdateSyncs((rc0, usetex0), dimensions, cs.small, cs.medium, cs.big);
      DefaultBindingsApplied(rc0, usetex0, dimensions, cs.small, cs.medium, cs.big);
    }

    /** `get_size`: the current value of the named size, `None` for the `ValueError`. */
    function GetSize(size: Arg): (r: Option<int>)
      reads cs
      ensures r.Some? <==> SizeNameOf(size).Some?
      ensures r.Some? ==> r.value == cs.small || r.value == cs.medium || r.value == cs.big
      ensures r.Some? && cs.Valid() ==> r.value >= 1
    {
      SizeFor(size, cs.small, cs.medium, cs.big)
    }

    /** `_update_dimension`: writes one element's parameter, or returns false and writes nothing. */
    method UpdateDimension(dimension: Arg, size: Arg) returns (ok: bool)
      modifies this
      ensures var u := DimensionUpdate(dimension, size, cs.small, cs.medium, cs.big, old(rc), old(usetex));
        ok == u.Some? && (rc, usetex) == (if ok then u.value else (old(rc), old(usetex)))
      ensures dimensions == old(dimensions)
    {
      var dim := NormalizeArg(dimension);
      var sz := NormalizeArg(size);
      var d := if dim.Str? then DimensionNamed(dim.s) else None;
      if d.None? {
        ok := false;
      } else if d.value == Latex {
        var flag := if sz.Str? then FlagNamed(sz.s) else None;
        if flag.Some? {
          usetex := flag.value;
          ok := true;
        } else {
          ok := false;
        }
      } else {
        SizeForNormalized(size, cs.small, cs.medium, cs.big);
        var v := GetSize(sz);
        if v.None? {
          ok := false;
        } else {
          rc := rc[RcKey(d.value) := v.value];
          ok := true;
        }
      }
    }

    /** `update_dimensions`: applies every binding of the table, in the table's order. */
    method UpdateDimensions()
      modifies this
      ensures (rc, usetex) == ApplyBindings((old(rc), old(usetex)), DimensionOrder, dimensions, cs.small, cs.medium, cs.big)
      ensures dimensions == old(dimensions)
    {
      for k := 0 to |DimensionOrder|
        invariant dimensions == old(dimensions)
        invariant (rc, usetex) == ApplyBindings((old(rc), old(usetex)), DimensionOrder[..k], dimensions, cs.small, cs.medium, cs.big)
      {
        var d := DimensionOrder[k];
        assert DimensionOrder[..k + 1][..k] == DimensionOrder[..k];
        if d in dimensions {
          var _ := UpdateDimension(Str(DimensionName(d)), Str(dimensions[d]));
        }
      }
      assert DimensionOrder[..|DimensionOrder|] == DimensionOrder;
    }

    /** `set_size`: converts the value, sets the named size through its setter and, on success, reapplies every binding. */
    method SetSize(size: Arg, value: Arg) returns (ok: bool)
      modifies this, cs
      ensures var u := SizeUpdate(old(cs.small), old(cs.medium), old(cs.big), size, value);
        ok == u.Some? && (cs.small, cs.medium, cs.big) == (if ok then u.value else (old(cs.small), old(cs.medium), old(cs.big)))
      ensures (rc, usetex) == if ok then ApplyBindings((old(rc), old(usetex)), DimensionOrder, dimensions, cs.small, cs.medium, cs.big)
                              else (old(rc), old(usetex))
      ensures dimensions == old(dimensions)
      ensures old(Valid()) ==> Valid()
      ensures ok && old(Valid()) ==> Synced()
    {
      var v := IntValue(value);
      if v.None? {
        return false;
      }
      match SizeNameOf(size) {
        case None =>
          return false;
        case Some(Small) =>
          ok := cs.SetSmall(v.value);
        case Some(Medium) =>
          ok := cs.SetMedium(v.value);
        case Some(Big) =>
          ok := cs.SetBig(v.value);
      }
      if ok {
        UpdateDimensions();
        if old(Valid()) {
          BindingsSync((old(rc), old(usetex)), DimensionOrder, dimensions, cs.small, cs.medium, cs.big);
          EveryDimensionListed();
        }
      }
    }

    /** `set_dimension`: rebinds an existing key when `_update_dimension` accepts the new value. */
    method SetDimension(dimension: Arg, value: Arg) returns (ok: bool)
      modifies this
      ensures var u := DimensionUpdate(dimension, value, cs.small, cs.medium, cs.big, old(rc), old(usetex));
        var key := if dimension.Str? then DimensionNamed(dimension.s) else None;
        ok == (key.Some? && key.value in old(dimensions) && u.Some?) &&
        (rc, usetex) == (if ok then u.value else (old(rc), old(usetex))) &&
        (ok ==> value.Str? && dimensions == old(dimensions)[key.value := value.s])
      ensures !ok ==> dimensions == old(dimensions)
      ensures old(Valid()) ==> Valid()
      ensures old(Valid()) && old(Synced()) ==> Synced()
    {
      ok := false;
      var key := if dimension.Str? then DimensionNamed(dimension.s) else None;
      if key.Some? && key.value in dimensions {
        ok := UpdateDimension(dimension, value);
        if ok {
          UpdateAcceptsStrings(dimension, value, cs.small, cs.medium, cs.big, old(rc), old(usetex));
          if old(Valid()) {
            RebindKeepsSync(old(rc), old(usetex), dimensions, dimension.s, key.value, value.s, cs.small, cs.medium, cs.big);
          }
          dimensions := dimensions[key.value := value.s];
        }
      }
    }
  }

  // ---------------------------------------------------------------------
  // What the configuration promises
  // ---------------------------------------------------------------------

  /** Only strings are ever accepted as names or values. */
  lemma UpdateAcceptsStrings(dimension: Arg, size: Arg, small: int, medium: int, big: int, rc: map<string, int>, usetex: bool)
    requires DimensionUpdate(dimension, size, small, medium, big, rc, usetex).Some?
    ensures dimension.Str? && size.Str?
  {
  }

  /** The sizes with the named one replaced by `v`. */
  function WithSize(small: int, medium: int, big: int, name: SizeName, v: int): (int, int, int)
  {
    match name
    case Small => (v, medium, big)
    case Medium => (small, v, big)
    case Big => (small, medium, v)
  }

  /**
   * From ordered sizes, `set_size` succeeds exactly when the value is an
   * integer, the name is a size and the sizes with that one replaced are
   * still ordered; it then sets that size and nothing else.
   */
  lemma SizeUpdateKeepsOrder(small: int, medium: int, big: int, size: Arg, value: Arg)
    requires Ordered(small, medium, big)
    ensures SizeUpdate(small, medium, big, size, value) ==
      if IntValue(value).Some? && SizeNameOf(size).Some?
         && var t := WithSize(small, medium, big, SizeNameOf(size).value, IntValue(value).value); Ordered(t.0, t.1, t.2)
      then Some(WithSize(small, medium, big, SizeNameOf(size).value, IntValue(value).value))
      else None
  {
  }

  /** `get_size` answers for exactly the three size names, and ordered sizes give ordered answers. */
  lemma GetSizeOrdered(small: int, medium: int, big: int, a: Arg, b: Arg)
    requires Ordered(small, medium, big)
    ensures SizeFor(a, small, medium, big).Some? <==> SizeNameOf(a).Some?
    ensures SizeFor(a, small, medium, big).Some? ==> SizeFor(a, small, medium, big).value >= 1
    ensures SizeNameOf(a) == Some(Small) && SizeNameOf(b) == Some(Big) ==>
      SizeFor(a, small, medium, big).value < SizeFor(b, small, medium, big).value
  {
  }

  /** Names and values are matched ignoring case and surrounding white space. */
  lemma NamesIgnoreCaseAndPadding(pad1: string, s: string, pad2: string)
    requires Text.AllSpace(pad1) && Text.AllSpace(pad2)
    ensures SizeNameOf(Str(pad1 + s + pad2)) == SizeNameOf(Str(s)) == SizeNameOf(Str(Text.Lower(s)))
    ensures DimensionOf(Str(pad1 + s + pad2)) == DimensionOf(Str(s)) == DimensionOf(Str(Text.Lower(s)))
    ensures FlagOf(Str(pad1 + s + pad2)) == FlagOf(Str(s)) == FlagOf(Str(Text.Lower(s)))
  {
    Text.NormalizeIgnoresPadding(pad1, s, pad2);
    Text.NormalizeIgnoresCase(s);
  }

  /** The nine keys of the bindings table are already normalised. */
  lemma DimensionNameNormal(x: string)
    requires x == "font" || x == "axes title" || x == "axes label" || x == "xtick" || x == "ytick"
          || x == "legend font" || x == "legend title" || x == "title" || x == "latex"
    ensures Text.Normalize(x) == x
  {
    Text.NormalizeOfNormal(x);
  }

  /** A key names its element, whether looked up as it is or normalised. */
  lemma DimensionNameRoundTrip(d: Dimension)
    ensures DimensionNamed(DimensionName(d)) == Some(d)
    ensures DimensionOf(Str(DimensionName(d))) == Some(d)
  {
    DimensionNameNormal(DimensionName(d));
  }

  /** Only the key itself names an element. */
  lemma DimensionNamedIsName(s: string, d: Dimension)
    requires DimensionNamed(s) == Some(d)
    ensures s == DimensionName(d)
  {
  }

  /** Distinct elements write distinct size parameters. */
  lemma RcKeyInjective(d: Dimension, e: Dimension)
    requires d != e && d != Latex && e != Latex
    ensures RcKey(d) != RcKey(e)
  {
  }

  /** Applying a valid binding of `d` brings `d`'s parameter in line and leaves every other element's alone. */
  lemma ApplyBindingSyncs(state: (map<string, int>, bool), d: Dimension, dims: map<Dimension, string>, small: int, medium: int, big: int)
    requires DimensionsValid(dims)
    ensures var next := ApplyBinding(state, d, dims, small, medium, big);
      SyncedOn(d, next.0, next.1, dims, small, medium, big) &&
      forall e: Dimension :: e != d && SyncedOn(e, state.0, state.1, dims, small, medium, big) ==> SyncedOn(e, next.0, next.1, dims, small, medium, big)
  {
    var next := ApplyBinding(state, d, dims, small, medium, big);
    assert SyncedOn(d, next.0, next.1, dims, small, medium, big) by {
      ApplyValidBinding(state, d, dims, small, medium, big);
    }
    forall e: Dimension | e != d
      ensures SyncedOn(e, state.0, state.1, dims, small, medium, big) ==> SyncedOn(e, next.0, next.1, dims, small, medium, big)
    {
      OtherBindingKept(state, d, e, dims, small, medium, big);
    }
  }

  /** Applying the binding of `d` does not disturb the parameter of another element. */
  lemma OtherBindingKept(state: (map<string, int>, bool), d: Dimension, e: Dimension, dims: map<Dimension, string>, small: int, medium: int, big: int)
    requires DimensionsValid(dims) && e != d
    ensures var next := ApplyBinding(state, d, dims, small, medium, big);
      SyncedOn(e, state.0, state.1, dims, small, medium, big) ==> SyncedOn(e, next.0, next.1, dims, small, medium, big)
  {
    ApplyValidBinding(state, d, dims, small, medium, big);
    var next := ApplyBinding(state, d, dims, small, medium, big);
    if e == Latex {
      SyncedOnUsetex(state, next, dims, small, medium, big);
    } else {
      if d != Latex {
        RcKeyInjective(d, e);
      }
      SyncedOnSize(state, next, e, dims, small, medium, big);
    }
  }

  /** Whether `latex` is in line depends on `usetex` alone. */
  lemma SyncedOnUsetex(state: (map<string, int>, bool), next: (map<string, int>, bool), dims: map<Dimension, string>, small: int, medium: int, big: int)
    requires next.1 == state.1
    ensures SyncedOn(Latex, state.0, state.1, dims, small, medium, big) ==> SyncedOn(Latex, next.0, next.1, dims, small, medium, big)
  {
  }

  /** Whether a size element is in line depends on its own parameter alone. */
  lemma SyncedOnSize(state: (map<string, int>, bool), next: (map<string, int>, bool), e: Dimension, dims: map<Dimension, string>, small: int, medium: int, big: int)
    requires e != Latex && (RcKey(e) in state.0 ==> RcKey(e) in next.0 && next.0[RcKey(e)] == state.0[RcKey(e)])
    ensures SyncedOn(e, state.0, state.1, dims, small, medium, big) ==> SyncedOn(e, next.0, next.1, dims, small, medium, big)
  {
  }

  /** A valid binding always applies: `latex` sets `usetex`, any other element its own size parameter. */
  lemma ApplyValidBinding(state: (map<string, int>, bool), d: Dimension, dims: map<Dimension, string>, small: int, medium: int, big: int)
    requires DimensionsValid(dims)
    ensures ApplyBinding(state, d, dims, small, medium, big) ==
      if d == Latex then (state.0, FlagOf(Str(dims[d])).value)
      else (state.0[RcKey(d) := SizeFor(Str(dims[d]), small, medium, big).value], state.1)
  {
    DimensionNameRoundTrip(d);
    assert Binds(d, dims[d]);
  }

  /** After the bindings of `ds` are applied in turn, every element of `ds` is in line with its binding. */
  lemma {:induction false} BindingsSync(state: (map<string, int>, bool), ds: seq<Dimension>, dims: map<Dimension, string>, small: int, medium: int, big: int)
    requires DimensionsValid(dims)
    ensures var final := ApplyBindings(state, ds, dims, small, medium, big);
      forall d :: d in ds ==> SyncedOn(d, final.0, final.1, dims, small, medium, big)
    decreases |ds|
  {
    if |ds| > 0 {
      var prefix := ds[..|ds| - 1];
      BindingsSync(state, prefix, dims, small, medium, big);
      ApplyBindingSyncs(ApplyBindings(state, prefix, dims, small, medium, big), ds[|ds| - 1], dims, small, medium, big);
      forall d | d in ds ensures d in prefix || d == ds[|ds| - 1] {
        var k :| 0 <= k < |ds| && ds[k] == d;
        if k < |ds| - 1 {
          assert prefix[k] == d;
        }
      }
    }
  }

  /** `update_dimensions` visits every element. */
  lemma EveryDimensionListed()
    ensures forall d: Dimension :: d in DimensionOrder
  {
    forall d: Dimension ensures d in DimensionOrder {
      match d {
        case Font => assert DimensionOrder[0] == d;
        case AxesTitle => assert DimensionOrder[1] == d;
        case AxesLabel => assert DimensionOrder[2] == d;
        case XTick => assert DimensionOrder[3] == d;
        case YTick => assert DimensionOrder[4] == d;
        case LegendFont => assert DimensionOrder[5] == d;
        case LegendTitle => assert DimensionOrder[6] == d;
        case Title => assert DimensionOrder[7] == d;
        case Latex => assert DimensionOrder[8] == d;
      }
    }
  }

  /** `update_dimensions()` on a valid table brings every element in line with its binding. */
  lemma UpdateSyncs(state: (map<string, int>, bool), dims: map<Dimension, string>, small: int, medium: int, big: int)
    requires DimensionsValid(dims)
    ensures var p := ApplyBindings(state, DimensionOrder, dims, small, medium, big);
      InSync(p.0, p.1, dims, small, medium, big)
  {
    BindingsSync(state, DimensionOrder, dims, small, medium, big);
    EveryDimensionListed();
  }

  /** The size each element is bound to by default, among the sizes `small`, `medium`, `big`. */
  function DefaultSize(d: Dimension, small: int, medium: int, big: int): int
  {
    match d
    case Font => small
    case AxesTitle => big
    case Title => big
    case _ => medium
  }

  /**
   * What `update_dimensions()` leaves with the default table `dims`, as at
   * import: `usetex` off and every size parameter at its element's default
   * size, whatever the parameters were before.
   */
  lemma DefaultBindingsApplied(rc0: map<string, int>, usetex0: bool, dims: map<Dimension, string>, small: int, medium: int, big: int)
    requires dims == DefaultDimensions
    ensures var p := ApplyBindings((rc0, usetex0), DimensionOrder, dims, small, medium, big);
      !p.1 && forall d: Dimension :: d != Latex ==> RcKey(d) in p.0 && p.0[RcKey(d)] == DefaultSize(d, small, medium, big)
  {
    var p := ApplyBindings((rc0, usetex0), DimensionOrder, dims, small, medium, big);
    DefaultDimensionsValid();
    UpdateSyncs((rc0, usetex0), dims, small, medium, big);
    forall d: Dimension ensures d != Latex ==> RcKey(d) in p.0 && p.0[RcKey(d)] == DefaultSize(d, small, medium, big) {
      DefaultName(d);
      SyncedValue(d, p.0, p.1, dims, small, medium, big, dims[d]);
    }
    DefaultName(Latex);
    SyncedValue(Latex, p.0, p.1, dims, small, medium, big, dims[Latex]);
  }

  /** The value each element is bound to in the table the module starts with. */
  lemma DefaultName(d: Dimension)
    ensures DefaultDimensions[d] == match d
      case Font => "small"
      case AxesTitle => "big"
      case Title => "big"
      case Latex => "false"
      case _ => "medium"
  {
  }

  /** An element in line with a binding to one of the five value names holds what that name denotes. */
  lemma SyncedValue(d: Dimension, rc: map<string, int>, usetex: bool, dims: map<Dimension, string>, small: int, medium: int, big: int, v: string)
    requires SyncedOn(d, rc, usetex, dims, small, medium, big) && dims[d] == v
    requires if d == Latex then v == "true" || v == "false" else v == "small" || v == "medium" || v == "big"
    ensures d == Latex ==> usetex == (v == "true")
    ensures d != Latex ==> rc[RcKey(d)] == (if v == "small" then small else if v == "medium" then medium else big)
  {
    ValueNameNormal(v);
  }

  /** A binding that `_update_dimension` accepts is a valid one. */
  lemma AcceptedBinds(dimension: Arg, d: Dimension, value: string, small: int, medium: int, big: int, rc: map<string, int>, usetex: bool)
    requires DimensionOf(dimension) == Some(d)
    requires DimensionUpdate(dimension, Str(value), small, medium, big, rc, usetex).Some?
    ensures Binds(d, value)
  {
  }

  /**
   * `set_dimension` on an existing key keeps the table valid, and keeps the
   * parameters in line with it: the one it rebinds is written, the others
   * are left alone.
   */
  lemma RebindKeepsSync(rc: map<string, int>, usetex: bool, dims: map<Dimension, string>, key: string, d: Dimension, value: string,
                        small: int, medium: int, big: int)
    requires DimensionsValid(dims) && DimensionNamed(key) == Some(d)
    requires DimensionUpdate(Str(key), Str(value), small, medium, big, rc, usetex).Some?
    ensures DimensionsValid(dims[d := value])
    ensures var next := DimensionUpdate(Str(key), Str(value), small, medium, big, rc, usetex).value;
      InSync(rc, usetex, dims, small, medium, big) ==> InSync(next.0, next.1, dims[d := value], small, medium, big)
  {
    DimensionNamedIsName(key, d);
    DimensionNameRoundTrip(d);
    AcceptedBinds(Str(key), d, value, small, medium, big, rc, usetex);
    var next := DimensionUpdate(Str(key), Str(value), small, medium, big, rc, usetex).value;
    var dims' := dims[d := value];
    if InSync(rc, usetex, dims, small, medium, big) {
      forall e: Dimension ensures SyncedOn(e, next.0, next.1, dims', small, medium, big) {
        if e != d && d != Latex && e != Latex {
          RcKeyInjective(d, e);
        }
        assert SyncedOn(e, rc, usetex, dims, small, medium, big);
      }
    }
  }

  /** Refusals from the sizes the module starts with: a name that is not a string, and values that would break the order. */
  lemma SetSizeRefusals(sn: string, mn: string, bn: string)
    requires sn == "small" && mn == "medium" && bn == "big"
    ensures SizeUpdate(10, 15, 20, Int(4), Int(30)) == None
    ensures SizeUpdate(10, 15, 20, Str(sn), Int(15)) == None
    ensures SizeUpdate(10, 15, 20, Str(sn), Int(0)) == None
    ensures SizeUpdate(10, 15, 20, Str(mn), Int(20)) == None
    ensures SizeUpdate(10, 15, 20, Str(mn), Int(10)) == None
    ensures SizeUpdate(10, 15, 20, Str(bn), Int(15)) == None
  {
    ValueNameNormal(sn);
    ValueNameNormal(mn);
    ValueNameNormal(bn);
  }

  /** An unknown size name is refused. */
  lemma UnknownSizeName(name: string)
    requires name == "sdadfgds"
    ensures SizeUpdate(10, 15, 20, Str(name), Int(100)) == None
  {
    Text.NormalizeOfNormal(name);
  }

  /** A value that is not an integer is refused. */
  lemma NonIntegerValue(name: string, value: string)
    requires name == "small" && value == "s"
    ensures SizeUpdate(10, 15, 20, Str(name), Str(value)) == None
  {
    Text.StripOfUnpadded(value);
  }

  /** A padded, upper-case name and a numeral are accepted: small becomes 4. */
  lemma PaddedSizeName(name: string, word: string, value: string)
    requires name == " SMALL  " && word == "SMALL" && value == "4"
    ensures SizeUpdate(10, 15, 20, Str(name), Str(value)) == Some((4, 15, 20))
  {
    NormalizesTo(name, " ", word, "  ", "small");
    ParseFour(value);
  }

  lemma ParseFour(value: string)
    requires value == "4"
    ensures Decimal.ParseInt(value) == Some(4)
  {
    Decimal.ParseIntOfIntToString(4);
    assert Decimal.IntToString(4) == value;
  }

  /** `"axes  title"`, with two spaces, names no element, so nothing is written. */
  lemma UnknownDimension(name: string)
    requires name == "axes  title"
    ensures DimensionOf(Str(name)) == None
  {
    Text.NormalizeOfNormal(name);
  }

  /** A padded, mixed-case element name and size are accepted: the font size becomes the small size. */
  lemma PaddedDimension(name: string, word: string, size: string, small: int, medium: int, big: int, rc: map<string, int>, usetex: bool)
    requires name == " FonT    " && word == "FonT" && size == "sMaLL"
    ensures DimensionUpdate(Str(name), Str(size), small, medium, big, rc, usetex) == Some((rc["font.size" := small], usetex))
  {
    NormalizesTo(name, " ", word, "    ", "font");
    NormalizesTo(size, "", size, "", "small");
  }

  /** A padded, mixed-case `latex` accepts `true` in any case. */
  lemma LatexTrue(latex: string, word: string, t: string, small: int, medium: int, big: int, rc: map<string, int>, usetex: bool)
    requires latex == " LAtEx    " && word == "LAtEx" && t == "TrUe"
    ensures DimensionUpdate(Str(latex), Str(t), small, medium, big, rc, usetex) == Some((rc, true))
  {
    PaddedLatex(latex, word);
    NormalizesTo(t, "", t, "", "true");
  }

  /** The padded, mixed-case name of `plots_test.py` names the `latex` element. */
  lemma PaddedLatex(latex: string, word: string)
    requires latex == " LAtEx    " && word == "LAtEx"
    ensures DimensionOf(Str(latex)) == Some(Latex)
  {
    NormalizesTo(latex, " ", word, "    ", "latex");
  }

  /** `latex` accepts `false` in any case and padding. */
  lemma LatexFalse(latex: string, f: string, word: string, small: int, medium: int, big: int, rc: map<string, int>, usetex: bool)
    requires latex == "latex" && f == "  FALSE  " && word == "FALSE"
    ensures DimensionUpdate(Str(latex), Str(f), small, medium, big, rc, usetex) == Some((rc, false))
  {
    DimensionNameNormal(latex);
    NormalizesTo(f, "  ", word, "  ", "false");
  }

  /** `latex` refuses a size name. */
  lemma LatexRefusesSize(latex: string, other: string, small: int, medium: int, big: int, rc: map<string, int>, usetex: bool)
    requires latex == "latex" && other == "small"
    ensures DimensionUpdate(Str(latex), Str(other), small, medium, big, rc, usetex) == None
  {
    DimensionNameNormal(latex);
    ValueNameNormal(other);
  }

  /** `lower()` of a word, letter by letter. */
  lemma LowerLetters(word: string, lower: string)
    requires |word| == |lower| && forall i :: 0 <= i < |word| ==> Text.LowerChar(word[i]) == lower[i]
    ensures Text.Lower(word) == lower
  {
    Text.LowerChars(word);
  }

  /** A word between white space normalises to the word in lower case. */
  lemma NormalizesTo(s: string, pad1: string, word: string, pad2: string, lower: string)
    requires Text.AllSpace(pad1) && Text.AllSpace(pad2) && s == pad1 + word + pad2
    requires |word| == |lower| && forall i :: 0 <= i < |word| ==> Text.LowerChar(word[i]) == lower[i]
    requires Text.NoUpper(lower) && Text.Unpadded(lower)
    ensures Text.Normalize(s) == lower
  {
    Text.NormalizeIgnoresPadding(pad1, word, pad2);
    Text.NormalizeIgnoresCase(word);
    LowerLetters(word, lower);
    Text.NormalizeOfNormal(lower);
  }

  /** The size names and the two `latex` settings are already normalised. */
  lemma ValueNameNormal(x: string)
    requires x == "small" || x == "medium" || x == "big" || x == "true" || x == "false"
    ensures Text.Normalize(x) == x
  {
    Text.NormalizeOfNormal(x);
  }

  /** Each element of the table the module starts with is bound to a value it accepts. */
  lemma DefaultBinding(d: Dimension, v: string)
    requires if d == Latex then v == "false" else v == "small" || v == "medium" || v == "big"
    ensures Binds(d, v)
  {
    ValueNameNormal(v);
  }

  /** The table the module starts with binds every element to a value it accepts. */
  lemma DefaultDimensionsValid()
    ensures DimensionsValid(DefaultDimensions)
  {
    var dims := DefaultDimensions;
    forall d: Dimension ensures d in dims && Binds(d, dims[d]) {
      match d {
        case Font =>
        case AxesTitle =>
        case AxesLabel =>
        case XTick =>
        case YTick =>
        case LegendFont =>
        case LegendTitle =>
        case Title =>
        case Latex =>
      }
      DefaultBinding(d, dims[d]);
    }
  }
}
