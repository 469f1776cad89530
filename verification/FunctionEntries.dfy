/** What a function's entry says of its range, and the function it contributes. */
module FunctionEntries {
  import opened MachineWords
  import opened LineSweep

  /** The low address with the high one, which may be given as a length. */
  datatype PcRange = PcRange(low: u64, high: u64, highIsLength: bool) {
    function End(): int {
      if highIsLength then low + high else high
    }
  }

  function NameOrOmitted(name: string): string {
    if name == "" then "<name omitted>" else name
  }

  /** The function added for an entry, on wrapping arithmetic. */
  function Contribution(name: string, range: PcRange): seq<FunctionInfo> {
    var end := if range.highIsLength then Add64(range.high, range.low) else range.high;
    if range.low < end && range.low != 0 then [Span(range.low, end - range.low, NameOrOmitted(name))] else []
  }

  /** With a range that is not empty, does not start at zero and ends below the end of the address space
      there is one function, with the entry's name if it has one; otherwise there is none. */
  lemma {:induction false} ContributionIsExact(name: string, range: PcRange)
    ensures var end := if range.highIsLength then range.low + range.high else range.high;
            Contribution(name, range)
            == if !(0 < range.low < end < 0x1_0000_0000_0000_0000) then []
               else if name != "" then [Span(range.low, end - range.low, name)]
               else [Span(range.low, end - range.low, "<name omitted>")]
    ensures AllProper(Contribution(name, range))
  {
  }
}
