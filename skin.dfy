/**
 * The skin description the piano roll is built from (`Skin`, `Theme`,
 * `Button`): the background themes, the button name match, and the choice of
 * theme and button table from what the skin file lists.
 */
module Skin {
  import opened Wrappers
  import opened Controller
  import opened Graphics

  /** A background: its theme name and the pixel size of its image. */
  datatype Theme = Theme(theme: string, width: nat, height: nat)

  /** A button overlay: which button it shows and where. */
  datatype Button = Button(name: Pressed, rect: Rect)

  /** The name a skin file uses for each button. */
  function NameOf(b: Pressed): string
  {
    match b
    case A => "a"
    case B => "b"
    case X => "x"
    case Y => "y"
    case Select => "select"
    case Start => "start"
    case L => "l"
    case R => "r"
    case Up => "up"
    case Down => "down"
    case Left => "left"
    case Right => "right"
  }

  /** The button a skin file's name attribute denotes; `None` where the source panics. */
  function PressedFromName(name: string): Option<Pressed>
  {
    match name
    case "a" => Some(A)
    case "b" => Some(B)
    case "x" => Some(X)
    case "y" => Some(Y)
    case "select" => Some(Select)
    case "start" => Some(Start)
    case "l" => Some(L)
    case "r" => Some(R)
    case "up" => Some(Up)
    case "down" => Some(Down)
    case "left" => Some(Left)
    case "right" => Some(Right)
    case _ => None
  }

  /** The name match accepts exactly the twelve button names, each for its own button. */
  lemma PressedFromNameInverse(name: string, b: Pressed)
    ensures PressedFromName(name) == Some(b) <==> name == NameOf(b)
  {
  }

  /**
   * A button overlay from its name attribute, position and image size; `None`
   * for an unknown name.
   */
  function NewButton(name: string, x: real, y: real, width: nat, height: nat): (r: Option<Button>)
    ensures r.None? <==> forall b: Pressed :: name != NameOf(b)
    ensures r.Some? ==> NameOf(r.value.name) == name && r.value.rect == Rect(x, y, width as real, height as real)
  {
    assert forall b: Pressed :: PressedFromName(NameOf(b)) == Some(b);
    match PressedFromName(name)
    case None => None
    case Some(p) => Some(Button(p, Rect(x, y, width as real, height as real)))
  }

  /** The first background whose theme is `theme`, or `None` if none is. */
  method ParseBackgrounds(backgrounds: seq<Theme>, theme: string) returns (r: Option<Theme>)
    ensures r.None? <==> forall i :: 0 <= i < |backgrounds| ==> backgrounds[i].theme != theme
    ensures r.Some? ==> exists i :: (0 <= i < |backgrounds| && backgrounds[i] == r.value
                                     && r.value.theme == theme && forall j :: 0 <= j < i ==> backgrounds[j].theme != theme)
  {
    for i := 0 to |backgrounds|
      invariant forall j :: 0 <= j < i ==> backgrounds[j].theme != theme
    {
      if backgrounds[i].theme == theme {
        return Some(backgrounds[i]);
      }
    }
    return None;
  }

  /** The button table: each listed button name mapped to the last overlay given for it. */
  method ParseButtons(buttons: seq<Button>) returns (m: map<Pressed, Button>)
    ensures forall p :: p in m <==> exists i :: 0 <= i < |buttons| && buttons[i].name == p
    ensures forall p :: p in m ==> exists i :: (0 <= i < |buttons| && buttons[i] == m[p]
                                                && buttons[i].name == p && forall j :: i < j < |buttons| ==> buttons[j].name != p)
  {
    m := map[];
    for k := 0 to |buttons|
      invariant forall p :: p in m <==> exists i :: 0 <= i < k && buttons[i].name == p
      invariant forall p :: p in m ==> exists i :: (0 <= i < k && buttons[i] == m[p]
                                                  && buttons[i].name == p && forall j :: i < j < k ==> buttons[j].name != p)
    {
      m := m[buttons[k].name := buttons[k]];
    }
  }
}
