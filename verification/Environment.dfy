/** What the agent cannot know beforehand: whether an operation succeeds. */
module Environment {
  /** Everything the agent does not control: the kernel, the filesystem, deadlines, packets that
      have yet to leave a slot. While it is failing, any operation may fail; otherwise none does. */
  class World {
    var failing: bool

    constructor ()
    {
      failing := *;
    }

    method Permits() returns (ok: bool)
      ensures !failing ==> ok
    {
      ok := *;
      ok := ok || !failing;
    }
  }
}
