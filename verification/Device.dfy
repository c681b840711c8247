/** The EBC device and its handles (einklib/display_linux.go). */
module Device {
  import opened Wrappers
  import opened Panel

  /** Why a device call failed. */
  datatype Fault = Closed | GetBuffer | Mmap | Consumed | SendBuffer

  /** What EBC_SEND_BUFFER hands to the driver. */
  datatype Submission = Submission(info: DisplayInfo, region: Region, mode: int, pixels: seq<byte>)

  /** Outcomes of the system calls behind one acquire and one commit. */
  datatype Kernel = Kernel(buffer: Option<DisplayInfo>, mmap: bool, send: bool)

  /** The device node. Every mapping is MAP_SHARED at offset 0, so all frames alias `mem`. */
  class Device {
    const mem: array<byte>
    var mapped: int              // mappings made minus mappings released
    var sends: seq<Submission>   // submissions the driver accepted

    constructor (mem: array<byte>)
      ensures this.mem == mem && mapped == 0 && sends == []
    {
      this.mem := mem;
      mapped := 0;
      sends := [];
    }
  }

  /** A mapped frame: its geometry and its length in bytes. */
  datatype Mapping = Mapping(info: DisplayInfo, size: nat)

  /** What `AcquireFrame` answers; Go's `Mmap` refuses a non-positive length. */
  function Grant(open: bool, memLength: nat, k: Kernel): (r: Result<Mapping, Fault>)
    ensures r.Success? ==> 0 < r.value.size == r.value.info.FrameByteCount() <= memLength
  {
    if !open then Failure(Closed)
    else if k.buffer.None? then Failure(GetBuffer)
    else if !k.mmap || !(0 < k.buffer.value.FrameByteCount() <= memLength) then Failure(Mmap)
    else Success(Mapping(k.buffer.value, k.buffer.value.FrameByteCount()))
  }

  class Display {
    const device: Device
    var fd: int
    var closed: seq<int>   // descriptors handed to close(2)

    constructor (device: Device, fd: nat)
      ensures this.device == device && this.fd == fd && closed == []
    {
      this.device := device;
      this.fd := fd;
      closed := [];
    }

    predicate Open()
      reads this
    {
      fd >= 0
    }

    method AcquireFrame(k: Kernel) returns (r: Result<Frame, Fault>)
      modifies device`mapped
      ensures r.Failure? <==> Grant(Open(), device.mem.Length, k).Failure?
      ensures r.Failure? ==> r.error == Grant(Open(), device.mem.Length, k).error && device.mapped == old(device.mapped)
      ensures r.Success? ==>
                && fresh(r.value) && r.value.Valid() && r.value.display == this && !r.value.consumed
                && Success(Mapping(r.value.info, r.value.size)) == Grant(Open(), device.mem.Length, k)
                && device.mapped == old(device.mapped) + 1
      ensures r.Success? <==> fd >= 0 && k.buffer.Some? && k.mmap
                              && 0 < k.buffer.value.FrameByteCount() <= device.mem.Length
      ensures r.Success? ==> r.value.info == k.buffer.value && r.value.size == k.buffer.value.FrameByteCount()
      ensures r.Failure? ==> r.error == if fd < 0 then Closed else if k.buffer.None? then GetBuffer else Mmap
    {
      if fd < 0 {
        return Failure(Closed);
      }
      if k.buffer.None? {
        return Failure(GetBuffer);
      }
      var info := k.buffer.value;
      var bytes := info.FrameByteCount();
      if !k.mmap || bytes <= 0 || bytes > device.mem.Length {
        return Failure(Mmap);
      }
      device.mapped := device.mapped + 1;
      var f := new Frame(this, info, bytes);
      return Success(f);
    }

    /** `closes` is the answer of close(2); the handle is given up even when it fails. */
    method Close(closes: bool) returns (ok: bool)
      modifies this
      ensures !Open()
      ensures old(Open()) ==> closed == old(closed) + [old(fd)] && ok == closes
      ensures !old(Open()) ==> closed == old(closed) && ok
    {
      if fd < 0 {
        return true;
      }
      ok := closes;
      closed := closed + [fd];
      fd := -1;
    }
  }

  /** A call on a frame handle, with the answer of its ioctl. */
  datatype Call = CommitCall(sent: bool) | CancelCall

  /** A handle's state and how often it released its mapping and reached the driver. */
  datatype Handle = Handle(consumed: bool, unmaps: nat, sends: nat)

  function Step(h: Handle, c: Call): Handle {
    if h.consumed || c == CommitCall(false) then h
    else Handle(true, h.unmaps + 1, if c.CommitCall? then h.sends + 1 else h.sends)
  }

  function Run(h: Handle, calls: seq<Call>): Handle
    decreases |calls|
  {
    if calls == [] then h else Run(Step(h, calls[0]), calls[1..])
  }

  const FRESH_HANDLE := Handle(false, 0, 0)

  lemma {:induction false} ConsumedStays(h: Handle, calls: seq<Call>)
    requires h.consumed
    ensures Run(h, calls) == h
  {
    if calls != [] {
      ConsumedStays(h, calls[1..]);
    }
  }

  /** A handle is one-shot: only its first cancel or accepted commit has any effect, so over any
      calls the mapping goes at most once, the driver gets at most one frame, and nothing is
      submitted once the mapping is gone. Failed commits leave the handle as it was. */
  lemma {:induction false} FrameIsOneShot(calls: seq<Call>, k: nat)
    requires k <= |calls|
    requires forall i | 0 <= i < k :: calls[i] == CommitCall(false)
    requires k < |calls| ==> calls[k] != CommitCall(false)
    ensures Run(FRESH_HANDLE, calls) ==
            if k == |calls| then FRESH_HANDLE else Handle(true, 1, if calls[k].CommitCall? then 1 else 0)
  {
    if k > 0 {
      FrameIsOneShot(calls[1..], k - 1);
    } else if calls != [] {
      ConsumedStays(Step(FRESH_HANDLE, calls[0]), calls[1..]);
    }
  }

  /** A frame handle; its pixels are the first `size` bytes of the device memory. */
  class Frame {
    const display: Display
    const info: DisplayInfo
    const size: nat
    var consumed: bool

    ghost predicate Valid() {
      0 < size <= display.device.mem.Length
    }

    constructor (display: Display, info: DisplayInfo, size: nat)
      requires 0 < size <= display.device.mem.Length
      ensures this.display == display && this.info == info && this.size == size && !consumed && Valid()
    {
      this.display := display;
      this.info := info;
      this.size := size;
      consumed := false;
    }

    method Commit(mode: int, region: Option<Region>, send: bool) returns (r: Result<(), Fault>)
      requires Valid()
      modifies this, display.device`mapped, display.device`sends
      ensures
        var sent := send && display.Open();
        var h := Step(Handle(old(consumed), 0, 0), CommitCall(sent));
        && consumed == h.consumed
        && display.device.mapped == old(display.device.mapped) - h.unmaps
        && display.device.sends == old(display.device.sends) +
             (if h.sends == 0 then []
              else [Submission(info, if region.Some? then region.value else info.FullRegion(),
                               mode, old(display.device.mem[..size]))])
        && r == if old(consumed) then Failure(Consumed) else if sent then Success(()) else Failure(SendBuffer)
      ensures r.Success? <==> !old(consumed) && send && display.fd >= 0
      ensures r.Success? ==>
                && consumed && display.device.mapped == old(display.device.mapped) - 1
                && |display.device.sends| == |old(display.device.sends)| + 1
                && display.device.sends[..|old(display.device.sends)|] == old(display.device.sends)
                && var s := display.device.sends[|old(display.device.sends)|];
                   && s.info == info && s.mode == mode && s.pixels == old(display.device.mem[..size])
                   && (region.Some? ==> s.region == region.value)
                   && (region.None? ==> s.region.x1 == s.region.y1 == 0
                                        && s.region.x2 == info.virtualWidth && s.region.y2 == info.virtualHeight)
      ensures r.Failure? ==>
                && consumed == old(consumed) && display.device.mapped == old(display.device.mapped)
                && display.device.sends == old(display.device.sends)
    {
      if consumed {
        return Failure(Consumed);
      }
      var window := if region.Some? then region.value else info.FullRegion();
      if display.fd < 0 || !send {
        return Failure(SendBuffer);
      }
      var s := Submission(info, window, mode, display.device.mem[..size]);
      display.device.sends := display.device.sends + [s];
      consumed := true;
      display.device.mapped := display.device.mapped - 1;
      return Success(());
    }

    method Cancel()
      modifies this, display.device`mapped
      ensures
        var h := Step(Handle(old(consumed), 0, 0), CancelCall);
        && consumed == h.consumed
        && display.device.mapped == old(display.device.mapped) - h.unmaps
      ensures consumed && display.device.mapped == old(display.device.mapped) - if old(consumed) then 0 else 1
    {
      if consumed {
        return;
      }
      consumed := true;
      display.device.mapped := display.device.mapped - 1;
    }
  }
}
