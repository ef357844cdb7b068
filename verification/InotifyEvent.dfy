/** The raw events of the inotify interface, as pyinotify.py keeps them in its queue. */
module InotifyEvent {
  /** A name is the sequence of its encoded bytes, one character each, without the padding. */
  datatype RawEvent = RawEvent(wd: int, mask: nat, cookie: nat, name: string)

  const IN_MOVED_FROM: nat := 0x40
  const IN_MOVED_TO: nat := 0x80
  const IN_MOVE_SELF: nat := 0x800
  const IN_IGNORED: nat := 0x8000
  const IN_ISDIR: nat := 0x40000000

  predicate HasBit(mask: nat, bit: nat)
    requires bit > 0
  {
    mask / bit % 2 == 1
  }

  function StrippedMask(mask: nat): nat {
    if HasBit(mask, IN_ISDIR) then mask - IN_ISDIR else mask
  }

  /** Only the bit for directories goes. */
  lemma StrippedIsBit30(mask: nat)
    ensures StrippedMask(mask) % 0x4000_0000 == mask % 0x4000_0000
    ensures StrippedMask(mask) / 0x8000_0000 == mask / 0x8000_0000
    ensures StrippedMask(mask) / 0x4000_0000 % 2 == 0
  {
    var low, high := mask % 0x4000_0000, mask / 0x4000_0000;
    assert mask == high * 0x4000_0000 + low;
  }
}
