/** The page's cosmetic inspection deterrent: a keydown handler that swallows the
    developer-tools, view-source and save shortcuts, and a context-menu handler that
    suppresses the menu. Only the handlers' decisions are modelled; attaching them
    to the window is not. */
module AntiInspect {

  /** The fields of a keyboard event the handler reads. A missing `keyCode` is 0. */
  datatype KeyEvent = KeyEvent(key: string, keyCode: int, ctrlKey: bool, shiftKey: bool)

  /** What a handler does to its event, and whether it returns `false` (otherwise it returns nothing). */
  datatype HandlerEffect = HandlerEffect(defaultPrevented: bool, propagationStopped: bool, returnsFalse: bool)

  /** The normalised key: the event's key name when it has one, else the single UTF-16 code
      unit that String.fromCharCode makes of the key code. */
  datatype NormalKey = Named(name: string) | CodeUnit(unit: int)

  /** The conversion String.fromCharCode applies to its argument: the integer modulo 2^16. */
  function ToUint16(n: int): (u: int)
    ensures 0 <= u < 0x1_0000
    ensures 0 <= n < 0x1_0000 ==> u == n
    ensures (n - u) % 0x1_0000 == 0
  {
    n % 0x1_0000
  }

  /** The key the letter rules compare: the key name when it is non-empty, otherwise
      String.fromCharCode of the key code (`|| 0` changes no integer code, since a
      falsy integer is already 0). */
  function NormalizeKey(e: KeyEvent): (k: NormalKey)
    ensures e.key != "" ==> k == Named(e.key)
    ensures e.key == "" ==> k.CodeUnit? && 0 <= k.unit < 0x1_0000
    ensures e.key == "" ==> (e.keyCode - k.unit) % 0x1_0000 == 0
  {
    if e.key != "" then Named(e.key)
    else CodeUnit(ToUint16(e.keyCode))
  }

  /** Strict equality of the normalised key with the one-character string `s`. */
  predicate KeyIs(k: NormalKey, s: string)
    requires |s| == 1
  {
    match k
    case Named(name) => name == s
    case CodeUnit(u) => u == s[0] as int
  }

  /** I or J in either case: with Ctrl and Shift, the developer-tools shortcuts. */
  predicate IsDevToolsLetter(k: NormalKey) {
    KeyIs(k, "I") || KeyIs(k, "i") || KeyIs(k, "J") || KeyIs(k, "j")
  }

  /** U or S in either case: with Ctrl, view-source and save. */
  predicate IsSourceOrSaveLetter(k: NormalKey) {
    KeyIs(k, "U") || KeyIs(k, "u") || KeyIs(k, "S") || KeyIs(k, "s")
  }

  /** Whether the keydown handler suppresses the keystroke. */
  function IsBlocked(e: KeyEvent): (blocked: bool)
    ensures e.key == "F12" ==> blocked
    ensures e.ctrlKey && e.shiftKey && IsDevToolsLetter(NormalizeKey(e)) ==> blocked
    ensures e.ctrlKey && IsSourceOrSaveLetter(NormalizeKey(e)) ==> blocked
    ensures !e.ctrlKey ==> (blocked <==> e.key == "F12")
    ensures blocked && e.key != "F12" ==>
      e.ctrlKey && (IsSourceOrSaveLetter(NormalizeKey(e)) || (e.shiftKey && IsDevToolsLetter(NormalizeKey(e))))
  {
    var k := NormalizeKey(e);
    e.key == "F12" ||
    (e.ctrlKey && e.shiftKey && (KeyIs(k, "I") || KeyIs(k, "i") || KeyIs(k, "J") || KeyIs(k, "j"))) ||
    (e.ctrlKey && (KeyIs(k, "U") || KeyIs(k, "u") || KeyIs(k, "S") || KeyIs(k, "s")))
  }

  /** The keydown handler: a blocked keystroke has its default prevented, its propagation
      stopped and the handler returns false; any other passes untouched. */
  function OnKeyDown(e: KeyEvent): (effect: HandlerEffect)
    ensures effect.defaultPrevented <==> IsBlocked(e)
    ensures effect.propagationStopped <==> IsBlocked(e)
    ensures effect.returnsFalse <==> IsBlocked(e)
  {
    if IsBlocked(e) then HandlerEffect(true, true, true)
    else HandlerEffect(false, false, false)
  }

  /** The context-menu handler suppresses the menu on every event, without stopping propagation. */
  function OnContextMenu(): (effect: HandlerEffect)
    ensures effect.defaultPrevented && effect.returnsFalse && !effect.propagationStopped
  {
    HandlerEffect(true, false, true)
  }

  /** F12 is blocked whatever the modifier keys. */
  lemma F12AlwaysBlocked(keyCode: int, ctrl: bool, shift: bool)
    ensures IsBlocked(KeyEvent("F12", keyCode, ctrl, shift))
  {
  }

  /** Ctrl+Shift+I and Ctrl+Shift+J are blocked in either letter case. */
  lemma DevToolsShortcutsBlocked(keyCode: int)
    ensures IsBlocked(KeyEvent("I", keyCode, true, true)) && IsBlocked(KeyEvent("i", keyCode, true, true))
    ensures IsBlocked(KeyEvent("J", keyCode, true, true)) && IsBlocked(KeyEvent("j", keyCode, true, true))
  {
  }

  /** Ctrl+U and Ctrl+S are blocked in either letter case, with or without Shift. */
  lemma SourceAndSaveShortcutsBlocked(keyCode: int, shift: bool)
    ensures IsBlocked(KeyEvent("U", keyCode, true, shift)) && IsBlocked(KeyEvent("u", keyCode, true, shift))
    ensures IsBlocked(KeyEvent("S", keyCode, true, shift)) && IsBlocked(KeyEvent("s", keyCode, true, shift))
  {
  }

  /** Ctrl+I and Ctrl+J without Shift pass. */
  lemma DevToolsLettersNeedShift(keyCode: int)
    ensures !IsBlocked(KeyEvent("I", keyCode, true, false)) && !IsBlocked(KeyEvent("i", keyCode, true, false))
    ensures !IsBlocked(KeyEvent("J", keyCode, true, false)) && !IsBlocked(KeyEvent("j", keyCode, true, false))
  {
  }

  /** An event with no key name falls back to its key code: codes 73/74 and 105/106 are I/J and
      i/j, 85/83 and 117/115 are U/S and u/s. */
  lemma KeyCodeFallback(shift: bool)
    ensures forall code :: code in {73, 74, 105, 106} ==> IsBlocked(KeyEvent("", code, true, true))
    ensures forall code :: code in {85, 83, 117, 115} ==> IsBlocked(KeyEvent("", code, true, shift))
  {
  }

  /** A key name, when present, decides alone: the key code is then ignored. */
  lemma KeyNameOverridesKeyCode(e: KeyEvent, code: int)
    requires e.key != ""
    ensures IsBlocked(e) == IsBlocked(e.(keyCode := code))
  {
  }

  /** F12 is recognised by key name only: with no key name its code 123 normalises to "{",
      which no rule matches, whatever the modifiers. */
  lemma F12ByKeyCodeNotBlocked(ctrl: bool, shift: bool)
    ensures !IsBlocked(KeyEvent("", 123, ctrl, shift))
  {
  }

  /** Without Ctrl only F12 is blocked: plain letters pass even when they are shortcut letters. */
  lemma NothingButF12WithoutCtrl(e: KeyEvent)
    requires !e.ctrlKey && e.key != "F12"
    ensures OnKeyDown(e) == HandlerEffect(false, false, false)
  {
  }
}
