/** The interrupt descriptor of a device, as src/devices.c writes and reads it. */
module Irq {
  import opened Words

  /** A write of 1 to a non-blocking eventfd fails when the counter is at its maximum. */
  const EVENTFD_MAX := TWO_64 - 2

  /** What irq_fd is: negative, an eventfd with its counter, or a descriptor of something else. */
  datatype IrqLine = Absent | Eventfd(counter: U64) | OtherFile

  function Raise(l: IrqLine): IrqLine {
    if l.Eventfd? && l.counter < EVENTFD_MAX then Eventfd(l.counter + 1) else l
  }

  function Acknowledge(l: IrqLine): IrqLine {
    if l.Eventfd? then Eventfd(0) else l
  }

  /** The line is an eventfd that holds n completions, or as many as it can. */
  predicate HoldsCount(l: IrqLine, n: nat) {
    l.Eventfd? && l.counter == if n <= EVENTFD_MAX then n else EVENTFD_MAX
  }

  /** The line of a device after device_register, which calls eventfd() for a negative descriptor only
      and then has to get one. */
  function Registered(l: IrqLine): IrqLine {
    if l == Absent then Eventfd(0) else l
  }

  /** A registered device has an eventfd exactly when it had one or had no descriptor. */
  lemma RegisteredHasEventfdIff(l: IrqLine)
    ensures Registered(l).Eventfd? <==> l != OtherFile
  {
  }

  /** Descriptor 0 of a zeroed record is no eventfd: registering leaves it and nothing is ever counted. */
  lemma ZeroedNeverCounts(n: nat)
    ensures Registered(OtherFile) == Raise(OtherFile) == Acknowledge(OtherFile) == OtherFile
    ensures !HoldsCount(OtherFile, n)
  {
  }
}
