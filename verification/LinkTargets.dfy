// Spelling a link target: note stems, and the new spelling of a target whose
// note moved (crates/gpty-core/src/links.rs, `note_stem` and `retarget`).
module LinkTargets {
  import opened Wrappers
  import opened Bytes
  import opened LinkScanner

  const SLASH: Byte := 0x2f
  const MD: Str := [0x2e, 0x6d, 0x64]

  predicate EndsWith(s: Str, suffix: Str) {
    |s| >= |suffix| && s[|s| - |suffix|..] == suffix
  }

  // `strip_suffix(".md")`, or the string itself.
  function WithoutMd(s: Str): Str {
    if EndsWith(s, MD) then s[..|s| - |MD|] else s
  }

  // What follows the last slash.
  function FileName(path: Str): (name: Str)
    ensures |name| <= |path| && SLASH !in name
  {
    if path == [] || path[|path| - 1] == SLASH then []
    else FileName(path[..|path| - 1]) + [path[|path| - 1]]
  }

  lemma {:induction false} FileNameAtRoot(path: Str)
    requires SLASH !in path
    ensures FileName(path) == path
  {
    if path != [] {
      FileNameAtRoot(path[..|path| - 1]);
    }
  }

  // A note's file stem; a path whose file name has no extension is its own.
  function NoteStem(path: Str): Str {
    var name := FileName(path);
    if EndsWith(name, MD) then name[..|name| - |MD|] else path
  }

  // `char::is_control` at the byte that starts a character: C0, DEL or C1.
  predicate ControlAt(s: Str, i: nat)
    requires i < |s|
  {
    s[i] < 0x20 || s[i] == 0x7f || (s[i] == 0xC2 && i + 1 < |s| && 0x80 <= s[i + 1] <= 0x9F)
  }

  predicate Spellable(s: Str) {
    && s != [] && |s| <= MAX_LINK_TARGET_BYTES
    && forall i :: 0 <= i < |s| ==>
         s[i] != OPENER && s[i] != CLOSER && s[i] != PIPE && s[i] != HASH && !ControlAt(s, i)
  }

  // The spelling `target` takes when its note moves to `newPath`.
  function Respelled(target: Str, newPath: Str): Str {
    if SLASH in target then
      if EndsWith(target, MD) then newPath else WithoutMd(newPath)
    else
      NoteStem(newPath)
  }

  function Retarget(target: Str, newPath: Str): Option<Str> {
    if Spellable(Respelled(target, newPath)) then Some(Respelled(target, newPath)) else None
  }
}
