/**
 * The whiteboard page as the script runs it: module-level variables that
 * the event handlers update in place. The canvas is a log of the segments
 * `drawLine` has stroked; the three colour widgets are ghost fields that
 * `setColor` writes. Every handler is proved to do what `Gestures.Step`
 * says of the same event.
 */
module Page {
  import opened Colors
  import opened Gestures

  class Whiteboard {
    var drawing: bool
    var currentTool: string
    var color: string
    var lastX: int
    var lastY: int

    /** The canvas: every segment stroked so far, oldest first. */
    ghost var strokes: seq<Segment>

    /** The values `setColor` last wrote into the colour picker, the hex field and the RGB field. */
    ghost var pickerValue: string
    ghost var hexValue: string
    ghost var rgbValue: string

    /** The colour is always a valid hex string and the canvas holds only well-styled segments. */
    ghost predicate Valid()
      reads this
    {
      IsValidHex(color) && forall i :: 0 <= i < |strokes| ==> WellStyled(strokes[i])
    }

    /** The globals as a `Gestures.State` value. */
    function Current(): State
      reads this
    {
      State(drawing, currentTool, color, lastX, lastY)
    }

    /** The script's start: pen tool, black, not drawing, an empty canvas; the widgets show what the page markup gave them. */
    constructor (picker: string, hex: string, rgb: string)
      ensures Valid()
      ensures Current() == Initial && strokes == []
      ensures pickerValue == picker && hexValue == hex && rgbValue == rgb
    {
      drawing := false;
      currentTool := "pen";
      color := "#000000";
      lastX, lastY := 0, 0;
      strokes := [];
      pickerValue, hexValue, rgbValue := picker, hex, rgb;
    }

    /** A tool radio button changed: its value becomes the tool, unchecked. */
    method OnToolChange(value: string)
      requires Valid()
      modifies this
      ensures Valid()
      ensures Current() == Step(old(Current()), ToolChange(value)).next
      ensures currentTool == value && strokes == old(strokes)
      ensures unchanged(this`pickerValue, this`hexValue, this`rgbValue)
    {
      currentTool := value;
    }

    /** Adopts a hex colour and mirrors it into all three widgets. */
    method SetColor(newColor: string)
      requires IsValidHex(newColor)
      requires Valid()
      modifies this
      ensures Valid()
      ensures Current() == old(Current()).(color := newColor) && strokes == old(strokes)
      ensures pickerValue == newColor && hexValue == newColor
      ensures rgbValue == RgbText(Decode(newColor))
    {
      color := newColor;
      pickerValue := newColor;
      hexValue := newColor;
      var rgb := Decode(newColor);
      rgbValue := RgbText(rgb);
    }

    /** The native picker reported a colour. */
    method OnPickerInput(value: string)
      requires PickerInput(value).WellFormed()
      requires Valid()
      modifies this
      ensures Valid()
      ensures Current() == Step(old(Current()), PickerInput(value)).next && strokes == old(strokes)
      ensures pickerValue == value && hexValue == value && rgbValue == RgbText(Decode(value))
    {
      SetColor(value);
    }

    /** The hex field changed: adopted only if it passes the pattern, otherwise nothing changes. */
    method OnHexChange(value: string)
      requires Valid()
      modifies this
      ensures Valid()
      ensures Current() == Step(old(Current()), HexChange(value)).next && strokes == old(strokes)
      ensures IsValidHex(value) ==> color == value && pickerValue == value && hexValue == value
      ensures IsValidHex(value) ==> rgbValue == RgbText(Decode(value))
      ensures !IsValidHex(value) ==> unchanged(this)
    {
      if IsValidHex(value) {
        SetColor(value);
      }
    }

    /**
     * The RGB field changed to the components `parts`: when there are three
     * and each lies in 0..255, their encoding is adopted; otherwise nothing
     * changes.
     */
    method OnRgbChange(parts: seq<int>)
      requires Valid()
      modifies this
      ensures Valid()
      ensures Current() == Step(old(Current()), RgbChange(parts)).next && strokes == old(strokes)
      ensures IsValidRgb(parts) ==> color == Encode(parts) && Decode(color) == (parts[0], parts[1], parts[2])
      ensures IsValidRgb(parts) ==> pickerValue == Encode(parts) && hexValue == Encode(parts)
      ensures IsValidRgb(parts) ==> rgbValue == RgbText((parts[0], parts[1], parts[2]))
      ensures !IsValidRgb(parts) ==> unchanged(this)
    {
      if IsValidRgb(parts) {
        DecodeEncode(parts);
        var hex := Encode(parts);
        SetColor(hex);
      }
    }

    /** Strokes one segment in the style the current tool and colour call for. */
    method DrawLine(x1: int, y1: int, x2: int, y2: int)
      requires Valid()
      modifies this`strokes
      ensures Valid()
      ensures strokes == old(strokes) + [Line(currentTool, color, x1, y1, x2, y2)]
    {
      assert IsValidHex("#ffffff");
      strokes := strokes + [Line(currentTool, color, x1, y1, x2, y2)];
    }

    /** Pointer pressed: anchor at the press point and start drawing. */
    method OnMouseDown(x: int, y: int)
      requires Valid()
      modifies this
      ensures Valid()
      ensures Current() == Step(old(Current()), MouseDown(x, y)).next
      ensures drawing && lastX == x && lastY == y && strokes == old(strokes)
      ensures unchanged(this`pickerValue, this`hexValue, this`rgbValue)
    {
      drawing := true;
      lastX, lastY := x, y;
    }

    /** Pointer moved: while drawing with a continuous tool, stroke from the last point and advance it. */
    method OnMouseMove(x: int, y: int)
      requires Valid()
      modifies this
      ensures Valid()
      ensures Current() == Step(old(Current()), MouseMove(x, y)).next
      ensures strokes == old(strokes) + Step(old(Current()), MouseMove(x, y)).ink
      ensures unchanged(this`pickerValue, this`hexValue, this`rgbValue)
    {
      if !drawing {
        return;
      }
      if IsContinuous(currentTool) {
        DrawLine(lastX, lastY, x, y);
        lastX, lastY := x, y;
      }
    }

    /** Pointer released or left the canvas: stop drawing, nothing else. */
    method OnMouseUp()
      requires Valid()
      modifies this
      ensures Valid()
      ensures Current() == Step(old(Current()), MouseUp).next
      ensures !drawing && Current() == old(Current()).(drawing := false) && strokes == old(strokes)
      ensures unchanged(this`pickerValue, this`hexValue, this`rgbValue)
    {
      drawing := false;
    }

    method OnMouseLeave()
      requires Valid()
      modifies this
      ensures Valid()
      ensures Current() == Step(old(Current()), MouseLeave).next
      ensures !drawing && Current() == old(Current()).(drawing := false) && strokes == old(strokes)
      ensures unchanged(this`pickerValue, this`hexValue, this`rgbValue)
    {
      drawing := false;
    }

    /** First touch point, already in canvas coordinates: anchor there and start drawing. */
    method OnTouchStart(x: int, y: int)
      requires Valid()
      modifies this
      ensures Valid()
      ensures Current() == Step(old(Current()), TouchStart(x, y)).next
      ensures drawing && lastX == x && lastY == y && strokes == old(strokes)
      ensures unchanged(this`pickerValue, this`hexValue, this`rgbValue)
    {
      lastX, lastY := x, y;
      drawing := true;
    }

    /** First touch point moved: the same rule as a pointer move. */
    method OnTouchMove(x: int, y: int)
      requires Valid()
      modifies this
      ensures Valid()
      ensures Current() == Step(old(Current()), TouchMove(x, y)).next
      ensures strokes == old(strokes) + Step(old(Current()), TouchMove(x, y)).ink
      ensures unchanged(this`pickerValue, this`hexValue, this`rgbValue)
    {
      if !drawing {
        return;
      }
      if IsContinuous(currentTool) {
        DrawLine(lastX, lastY, x, y);
        lastX, lastY := x, y;
      }
    }

    /** Touch ended or was cancelled: stop drawing, nothing else. */
    method OnTouchEnd()
      requires Valid()
      modifies this
      ensures Valid()
      ensures Current() == Step(old(Current()), TouchEnd).next
      ensures !drawing && Current() == old(Current()).(drawing := false) && strokes == old(strokes)
      ensures unchanged(this`pickerValue, this`hexValue, this`rgbValue)
    {
      drawing := false;
    }

    method OnTouchCancel()
      requires Valid()
      modifies this
      ensures Valid()
      ensures Current() == Step(old(Current()), TouchCancel).next
      ensures !drawing && Current() == old(Current()).(drawing := false) && strokes == old(strokes)
      ensures unchanged(this`pickerValue, this`hexValue, this`rgbValue)
    {
      drawing := false;
    }
  }
}
