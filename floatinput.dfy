/**
 * The numeric input box with a trigger button (assets/widgets/FloatInputWidget.py).
 *
 * Three pieces of it are logic rather than Qt plumbing: the validator's comma rule,
 * the integer arithmetic that splits the widget's width into a line edit and a square
 * button, and the submit step that clears the box and emits the parsed value. The
 * inherited QDoubleValidator check, the validator's fixup and Python's float() are
 * passed in as functions.
 */
module FloatInput {
  import opened Wrappers

  /** QValidator.State. */
  datatype ValidatorState = Invalid | Intermediate | Acceptable

  /** The inherited QDoubleValidator.validate: (input, cursor position) to (state, input, position). */
  type BaseValidate = (string, int) -> (ValidatorState, string, int)

  /** DotOnlyDoubleValidator.validate: a comma anywhere makes the input Invalid; otherwise the base validator decides. */
  function Validate(input: string, pos: int, base: BaseValidate): (r: (ValidatorState, string, int))
    ensures ',' in input ==> r == (Invalid, input, pos)
    ensures ',' !in input ==> r == base(input, pos)
  {
    if ',' in input then (Invalid, input, pos) else base(input, pos)
  }

  /** However the rest of the text reads, one comma in it makes it Invalid and leaves text and cursor alone. */
  lemma CommaAnywhereIsInvalid(before: string, after: string, pos: int, base: BaseValidate)
    ensures Validate(before + [','] + after, pos, base) == (Invalid, before + [','] + after, pos)
  {
    assert (before + [','] + after)[|before|] == ',';
  }

  // ---------------------------------------------------------------------------
  // Geometry of set_size.
  // ---------------------------------------------------------------------------

  /** A child widget's geometry: position and size in the parent's coordinates. */
  datatype Rect = Rect(x: int, y: int, w: int, h: int)

  /** What set_size writes into the child widgets. */
  datatype Layout = Layout(lineEdit: Rect, button: Rect, iconSide: int, pressedPadding: int)

  /** The height set_size lays out with: first shrunk so the line edit keeps min_width, then raised to min_height. */
  function EffectiveHeight(width: int, height: int, minWidth: int, minHeight: int): (h: int)
  {
    var h := if width - height < minWidth - minHeight then width - minWidth else height;
    if h < minHeight then minHeight else h
  }

  /** The child geometry for a given width and effective height. */
  function LayoutFor(width: int, h: int): Layout
  {
    Layout(Rect(0, 0, width - h, h), Rect(width - h, 0, h, h), h / 2, h / 4)
  }

  /** The layout set_size(width, height) produces for the given minimum size. */
  function SetSizeLayout(width: int, height: int, minWidth: int, minHeight: int): Layout
  {
    LayoutFor(width, EffectiveHeight(width, height, minWidth, minHeight))
  }

  /**
   * The line edit and the button share the width exactly, the button is a square placed right after
   * the line edit, both are as tall as the effective height, and that height is at least min_height.
   */
  lemma LayoutSplitsWidth(width: int, height: int, minWidth: int, minHeight: int)
    ensures var l := SetSizeLayout(width, height, minWidth, minHeight);
      && l.lineEdit.w + l.button.w == width
      && l.button.w == l.button.h == l.lineEdit.h
      && l.lineEdit.x == 0 && l.button.x == l.lineEdit.w
      && l.lineEdit.y == 0 && l.button.y == 0
      && l.button.h >= minHeight
  {
  }

  /** A height that already leaves room for the line edit and is not below min_height is used unchanged. */
  lemma RequestedHeightKept(width: int, height: int, minWidth: int, minHeight: int)
    requires width - height >= minWidth - minHeight && height >= minHeight
    ensures SetSizeLayout(width, height, minWidth, minHeight).button.h == height
  {
  }

  /** Too tall a request is cut back so that the line edit keeps exactly min_width, unless min_height forbids it. */
  lemma TallRequestShrunk(width: int, height: int, minWidth: int, minHeight: int)
    requires width - height < minWidth - minHeight && width - minWidth >= minHeight
    ensures SetSizeLayout(width, height, minWidth, minHeight).lineEdit.w == minWidth
  {
  }

  /** The icon is half and the pressed padding a quarter of the effective height, rounded down. */
  lemma IconAndPadding(width: int, height: int, minWidth: int, minHeight: int)
    ensures var l := SetSizeLayout(width, height, minWidth, minHeight);
      && 2 * l.iconSide <= l.button.h < 2 * l.iconSide + 2
      && 4 * l.pressedPadding <= l.button.h < 4 * l.pressedPadding + 4
  {
  }

  /** Once the widget is at least min_width wide, the line edit is never narrower than min_width - min_height. */
  lemma LineEditLowerBound(width: int, height: int, minWidth: int, minHeight: int)
    requires width >= minWidth && minHeight >= 0
    ensures SetSizeLayout(width, height, minWidth, minHeight).lineEdit.w >= minWidth - minHeight
  {
  }

  /** Laying out again at the height set_size settled on changes nothing (what resizeEvent then does). */
  lemma EffectiveHeightIsStable(width: int, height: int, minWidth: int, minHeight: int)
    requires minHeight >= 0
    ensures var h := EffectiveHeight(width, height, minWidth, minHeight);
      EffectiveHeight(width, h, minWidth, minHeight) == h
  {
  }

  // ---------------------------------------------------------------------------
  // Submitting: str.strip.
  // ---------------------------------------------------------------------------

  /** The ASCII characters Python's str.isspace accepts, which str.strip removes: tab to carriage return, U+001C to U+001F, and space. */
  predicate IsSpace(c: char)
  {
    c == ' ' || ('\t' <= c <= '\r') || ('\U{1c}' <= c <= '\U{1f}')
  }

  /** The number of whitespace characters at the start of `s`. */
  function LeadingSpaces(s: string): (n: nat)
    ensures n <= |s|
    ensures forall i :: 0 <= i < n ==> IsSpace(s[i])
    ensures n < |s| ==> !IsSpace(s[n])
  {
    if s != [] && IsSpace(s[0]) then 1 + LeadingSpaces(s[1..]) else 0
  }

  /** The number of whitespace characters at the end of `s`. */
  function TrailingSpaces(s: string): (n: nat)
    ensures n <= |s|
    ensures forall i :: |s| - n <= i < |s| ==> IsSpace(s[i])
    ensures n < |s| ==> !IsSpace(s[|s| - n - 1])
  {
    if s != [] && IsSpace(s[|s| - 1]) then 1 + TrailingSpaces(s[..|s| - 1]) else 0
  }

  /** str.strip: `s` without its leading and trailing whitespace. */
  function Strip(s: string): (r: string)
    ensures |r| <= |s| - LeadingSpaces(s)
    ensures r == s[LeadingSpaces(s)..LeadingSpaces(s) + |r|]
    ensures forall i :: 0 <= i < |s| && !IsSpace(s[i]) ==> LeadingSpaces(s) <= i < LeadingSpaces(s) + |r|
    ensures r != [] ==> !IsSpace(r[0]) && !IsSpace(r[|r| - 1])
  {
    var lead := LeadingSpaces(s);
    var rest := s[lead..];
    var trail := TrailingSpaces(rest);
    var r := rest[..|rest| - trail];
    assert r == s[lead..lead + |r|];
    assert forall i :: lead + |r| <= i < |s| ==> s[i] == rest[i - lead];
    r
  }

  /**
   * Strip is characterised by where it cuts: whitespace before `i` and from `j` on, and no
   * whitespace at either end of `s[i..j]`, mean that `s[i..j]` is what str.strip returns.
   */
  lemma StripCharacterised(s: string, i: nat, j: nat)
    requires i <= j <= |s|
    requires forall k :: 0 <= k < i ==> IsSpace(s[k])
    requires forall k :: j <= k < |s| ==> IsSpace(s[k])
    requires i < j ==> !IsSpace(s[i]) && !IsSpace(s[j - 1])
    ensures Strip(s) == s[i..j]
  {
    var lead := LeadingSpaces(s);
    var r := Strip(s);
    if i < j {
      assert lead <= i < lead + |r|;
      assert lead == i;
      assert j - 1 < lead + |r|;
      assert r[|r| - 1] == s[lead + |r| - 1];
      assert lead + |r| <= j;
    }
  }

  /** Whitespace in front of the text does not change what str.strip returns. */
  lemma StripDropsLeadingSpace(c: char, s: string)
    requires IsSpace(c)
    ensures Strip([c] + s) == Strip(s)
  {
    var t := [c] + s;
    assert t[1..] == s;
    assert LeadingSpaces(t) == 1 + LeadingSpaces(s);
    assert t[LeadingSpaces(t)..] == s[LeadingSpaces(s)..];
  }

  /** Whitespace after the text does not change what str.strip returns. */
  lemma StripDropsTrailingSpace(s: string, c: char)
    requires IsSpace(c)
    ensures Strip(s + [c]) == Strip(s)
  {
    var lead := LeadingSpaces(s);
    var r := Strip(s);
    var t := s + [c];
    forall k | 0 <= k < lead ensures IsSpace(t[k]) {
      assert t[k] == s[k];
    }
    forall k | lead + |r| <= k < |t| ensures IsSpace(t[k]) {
      if k < |s| {
        assert t[k] == s[k];
        assert !(lead <= k < lead + |r|);
      }
    }
    assert t[lead..lead + |r|] == r;
    StripCharacterised(t, lead, lead + |r|);
  }

  // ---------------------------------------------------------------------------
  // The widget.
  // ---------------------------------------------------------------------------

  class FloatInputWidget {
    var minWidth: int
    var minHeight: int
    /** The widget's own size, as Qt's width() and height() report it. */
    var width: int
    var height: int
    /** The minimum size handed to Qt through QWidget.setMinimumSize and setMinimumHeight. */
    var qtMinimumWidth: int
    var qtMinimumHeight: int
    /** The line edit's text. */
    var text: string
    /** The child geometry last written by set_size; None before the first layout. */
    var layout: Option<Layout>

    /** The minimum size Qt enforces is the widget's own min_width x min_height. */
    ghost predicate Valid()
      reads this
    {
      qtMinimumWidth == minWidth && qtMinimumHeight == minHeight
    }

    /** __init__: the default minimum size is 148 x 20; Qt gives the widget its initial size. */
    constructor (width: int, height: int)
      ensures minWidth == 148 && minHeight == 20
      ensures qtMinimumWidth == 148 && qtMinimumHeight == 20 && Valid()
      ensures this.width == width && this.height == height
      ensures text == [] && layout == None
    {
      minWidth, minHeight := 148, 20;
      this.width, this.height := width, height;
      qtMinimumWidth, qtMinimumHeight := 148, 20;
      text := [];
      layout := None;
    }

    /** set_size: lay the line edit and the square button out in `width`, with the clamped height. */
    method SetSize(width: int, height: int)
      modifies this`layout
      ensures layout == Some(SetSizeLayout(width, height, minWidth, minHeight))
    {
      var h := height;
      if width - h < minWidth - minHeight {
        h := width - minWidth;
      }
      if h < minHeight {
        h := minHeight;
      }
      var lineWidth := width - h;
      layout := Some(Layout(Rect(0, 0, lineWidth, h), Rect(lineWidth, 0, h, h), h / 2, h / 4));
    }

    /** sizeHint: the minimum size, which is the minimum Qt enforces on the widget. */
    function SizeHint(): (r: (int, int))
      reads this
      requires Valid()
      ensures r == (qtMinimumWidth, qtMinimumHeight)
    {
      (minWidth, minHeight)
    }

    /** minimumSizeHint: the same minimum size. */
    function MinimumSizeHint(): (r: (int, int))
      reads this
      requires Valid()
      ensures r == SizeHint()
    {
      (minWidth, minHeight)
    }

    /** Laid out at its own size hint, the widget needs neither clamp: the button is min_height square. */
    lemma SizeHintNeedsNoClamp()
      requires Valid()
      ensures SetSizeLayout(SizeHint().0, SizeHint().1, minWidth, minHeight) == LayoutFor(minWidth, minHeight)
    {
    }

    /** setMinimumHeight: record the new minimum, lay out at exactly that height, and pass it on to Qt. */
    method SetMinimumHeight(minh: int)
      modifies this`minHeight, this`layout, this`qtMinimumHeight
      requires Valid()
      ensures Valid()
      ensures minHeight == minh && qtMinimumHeight == minh
      ensures layout == Some(SetSizeLayout(width, minh, minWidth, minh))
      ensures layout.value.button.h >= minh
    {
      minHeight := minh;
      SetSize(width, minh);
      qtMinimumHeight := minh;
      LayoutSplitsWidth(width, minh, minWidth, minh);
    }

    /** resizeEvent: Qt has given the widget a new size; lay the children out again for it. */
    method ResizeEvent(newWidth: int, newHeight: int)
      modifies this`width, this`height, this`layout
      ensures width == newWidth && height == newHeight
      ensures layout == Some(SetSizeLayout(newWidth, newHeight, minWidth, minHeight))
    {
      width, height := newWidth, newHeight;
      SetSize(width, height);
    }

    /**
     * _submit: strip the text, let the validator fix it up and parse it. The box is cleared in every
     * case; a value is emitted (returned here) only when parsing succeeded.
     */
    method Submit(fixup: string -> string, parse: string -> Option<real>) returns (emitted: Option<real>)
      modifies this`text
      ensures text == []
      ensures emitted == parse(fixup(Strip(old(text))))
    {
      var t := Strip(text);
      t := fixup(t);
      var value := parse(t);
      if value.None? {
        text := [];
        return None;
      }
      emitted := value;
      text := [];
    }
  }
}
