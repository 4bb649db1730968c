/** The name of an upload, `clip-YYYYMMDD-HHMMSS-<hex>.png`: its recogniser and its
    producer. */
module UploadName {
  import opened Types

  const MIN_NAME: nat := 26
  const MAX_NAME: nat := 89
  const MAX_HEX: nat := 64

  predicate IsDigit(c: char) { '0' <= c <= '9' }

  predicate IsLowerHex(c: char) { IsDigit(c) || 'a' <= c <= 'f' }

  function Dec2(s: string, at: nat): int
    requires at + 1 < |s|
  {
    (s[at] as int - '0' as int) * 10 + (s[at + 1] as int - '0' as int)
  }

  /** The pattern, read off the name position by position. */
  ghost predicate IsUploadName(name: string) {
    && MIN_NAME <= |name| <= MAX_NAME
    && name[..5] == "clip-" && name[13] == '-' && name[20] == '-'
    && (forall i :: 5 <= i < 20 && i != 13 ==> IsDigit(name[i]))
    && 1 <= Dec2(name, 9) <= 12 && 1 <= Dec2(name, 11) <= 31
    && Dec2(name, 14) <= 23 && Dec2(name, 16) <= 59 && Dec2(name, 18) <= 59
    && name[|name| - 4..] == ".png"
    && |name| - 25 <= MAX_HEX
    && (forall i :: 21 <= i < |name| - 4 ==> IsLowerHex(name[i]))
  }

  method AllDigits(s: string, first: nat, last: nat) returns (ok: bool)
    requires first <= last < |s|
    ensures ok <==> forall i :: first <= i <= last ==> IsDigit(s[i])
  {
    for i := first to last + 1
      invariant forall j :: first <= j < i ==> IsDigit(s[j])
    {
      if !IsDigit(s[i]) {
        return false;
      }
    }
    return true;
  }

  method HasUploadPrefix(name: string) returns (ok: bool)
    requires MIN_NAME <= |name|
    ensures ok <==> name[..5] == "clip-" && name[13] == '-' && name[20] == '-' &&
                    forall i :: 5 <= i < 20 && i != 13 ==> IsDigit(name[i])
  {
    if name[..5] != "clip-" || name[13] != '-' || name[20] != '-' {
      return false;
    }
    ok := AllDigits(name, 5, 12);
    if ok {
      ok := AllDigits(name, 14, 19);
    }
  }

  method HasUploadTail(name: string) returns (ok: bool)
    requires MIN_NAME <= |name|
    ensures ok <==> name[|name| - 4..] == ".png" && |name| - 25 <= MAX_HEX &&
                    forall i :: 21 <= i < |name| - 4 ==> IsLowerHex(name[i])
  {
    var suffix := |name| - 4;
    if name[suffix..] != ".png" || MAX_HEX < suffix - 21 {
      return false;
    }
    for i := 21 to suffix
      invariant forall j :: 21 <= j < i ==> IsLowerHex(name[j])
    {
      if !IsLowerHex(name[i]) {
        return false;
      }
    }
    return true;
  }

  method MatchesUploadName(name: string) returns (ok: bool)
    ensures ok <==> IsUploadName(name)
  {
    if |name| < MIN_NAME || MAX_NAME < |name| {
      return false;
    }
    ok := HasUploadPrefix(name);
    if ok {
      ok := 1 <= Dec2(name, 9) <= 12 && 1 <= Dec2(name, 11) <= 31 &&
            Dec2(name, 14) <= 23 && Dec2(name, 16) <= 59 && Dec2(name, 18) <= 59;
    }
    if ok {
      ok := HasUploadTail(name);
    }
  }
}
