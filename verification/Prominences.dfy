/** The prominence scale shared by the cascade, the debouncer and the shell messages. */
module Prominences {

  datatype Prominence = Hidden | Badge | IconOnly | Compact | Visible | Expanded {
    function Rank(): nat {
      match this
      case Hidden => 0
      case Badge => 1
      case IconOnly => 2
      case Compact => 3
      case Visible => 4
      case Expanded => 5
    }

    predicate Above(other: Prominence) {
      Rank() > other.Rank()
    }
  }

  /** Widget id to prominence. */
  type Levels = map<string, Prominence>

  datatype BarLayout = BarLayout(left: seq<string>, center: seq<string>, right: seq<string>)
}
