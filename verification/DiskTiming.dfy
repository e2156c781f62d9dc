/** The timing of the simulated disk (machine/disk.cc): seek, rotation and the
track buffer. Sector k of a track is under the head from time 500 * m to
500 * (m + 1) whenever m mod 32 is k: 32 sectors a track, 500 ticks to rotate past
a sector, and 500 to seek past a track. */
module DiskTiming {

  /** A sector boundary at which the given sector comes under the head. */
  predicate StartsAt(t: nat, sector: nat) { t % 500 == 0 && t / 500 % 32 == sector % 32 }

  function SeekTicks(from: nat, to: nat): nat {
    var d := to / 32 - from / 32; (if d < 0 then -d else d) * 500
  }

  /** From the end of the seek to the next sector boundary. */
  function RotationTicks(seekEnd: nat): nat {
    var over := seekEnd % 500; if over > 0 then 500 - over else 0
  }

  lemma RotationAligns(seekEnd: nat)
    ensures var t := seekEnd + RotationTicks(seekEnd);
            t % 500 == 0 && seekEnd <= t < seekEnd + 500
            && forall u: nat :: u % 500 == 0 && u >= seekEnd ==> t <= u
  {
    var t := seekEnd + RotationTicks(seekEnd);
    forall u: nat | u % 500 == 0 && u >= seekEnd ensures t <= u {
      assert seekEnd == 500 * (seekEnd / 500) + seekEnd % 500 && u == 500 * (u / 500);
    }
  }

  /** Sectors of rotation until `to` comes by, counted from `from`. */
  function ModuloDiff(to: nat, from: nat): nat { ((to % 32 - from % 32) + 32) % 32 }

  /** It is the smallest such distance. */
  lemma ModuloDiffIsLeast(to: nat, from: nat, d: nat)
    ensures ModuloDiff(to, from) < 32 && (from + ModuloDiff(to, from)) % 32 == to % 32
    ensures (from + d) % 32 == to % 32 ==> ModuloDiff(to, from) <= d
  {
    assert from == 32 * (from / 32) + from % 32;
    if d < 32 {
      var x := from % 32 + d;
      assert (from + d) % 32 == x % 32;
      assert x < 64 && (x % 32 == x || x % 32 == x - 32);
    }
  }

  /** The first time, at or after an aligned time t, that the sector starts. */
  lemma NextStart(t: nat, sector: nat)
    requires t % 500 == 0
    ensures var s := t + ModuloDiff(sector, t / 500) * 500;
            && StartsAt(s, sector) && t <= s <= t + 31 * 500
            && forall u: nat :: StartsAt(u, sector) && u >= t ==> s <= u
  {
    var d := ModuloDiff(sector, t / 500);
    ModuloDiffIsLeast(sector, t / 500, 0);
    var s := t + d * 500;
    assert t == 500 * (t / 500) && s == 500 * (t / 500 + d);
    assert s % 500 == 0 && s / 500 == t / 500 + d;
    forall u: nat | StartsAt(u, sector) && u >= t ensures s <= u {
      assert u == 500 * (u / 500);
      var e := u / 500 - t / 500;
      ModuloDiffIsLeast(sector, t / 500, e);
    }
  }

  /** The first time the sector starts at or after the end of a seek. */
  lemma NextStartAfter(seekEnd: nat, sector: nat)
    ensures var t := seekEnd + RotationTicks(seekEnd);
            var s := t + ModuloDiff(sector, t / 500) * 500;
            && StartsAt(s, sector) && t <= s < seekEnd + 32 * 500
            && forall u: nat :: StartsAt(u, sector) && u >= seekEnd ==> s <= u
  {
    var t := seekEnd + RotationTicks(seekEnd);
    RotationAligns(seekEnd);
    NextStart(t, sector);
    forall u: nat | StartsAt(u, sector) && u >= seekEnd ensures t <= u {}
  }

  /** The sector has passed the head entirely between the two times. */
  ghost predicate Passed(sector: nat, since: nat, until: nat) {
    exists t: nat :: StartsAt(t, sector) && since <= t && t + 500 <= until
  }

  class Disk {
    var lastSector: nat
    var bufferInit: nat  // when the track buffer started to be loaded
    var active: bool
    ghost var freeAt: nat  // when the last request completes

    ghost predicate Valid()
      reads this
    {
      lastSector < 1024 && bufferInit % 500 == 0 && bufferInit <= freeAt
    }

    constructor ()
      ensures Valid() && lastSector == 0 && bufferInit == 0 && !active && freeAt == 0
    {
      lastSector, bufferInit, active, freeAt := 0, 0, false, 0;
    }

    /** The seek, and the rest of the sector that passes when it ends. */
    method TimeToSeek(newSector: nat, now: nat) returns (seek: nat, rotation: nat)
      ensures seek == SeekTicks(lastSector, newSector) && rotation == RotationTicks(now + seek)
      ensures newSector / 32 >= lastSector / 32 ==> seek == 500 * (newSector / 32 - lastSector / 32)
      ensures newSector / 32 <= lastSector / 32 ==> seek == 500 * (lastSector / 32 - newSector / 32)
      ensures rotation < 500 && (now + seek + rotation) % 500 == 0
    {
      var newTrack, oldTrack := newSector / 32, lastSector / 32;
      seek := (if newTrack >= oldTrack then newTrack - oldTrack else oldTrack - newTrack) * 500;
      var over := (now + seek) % 500;
      rotation := 0;
      if over > 0 {
        rotation := 500 - over;
      }
    }

    /** A read on the current track of a sector that has gone by entirely since the
        track buffer started to load takes one sector's time. Any other request
        completes at the earliest time at which the sector has passed the head
        entirely after the seek. */
    method ComputeLatency(newSector: nat, writing: bool, now: nat) returns (ticks: nat)
      requires Valid() && newSector < 1024 && now >= freeAt
      ensures var seekEnd := now + SeekTicks(lastSector, newSector);
              var hit := !writing && newSector / 32 == lastSector / 32
                         && Passed(newSector, bufferInit, seekEnd + RotationTicks(seekEnd));
              if hit then ticks == 500
              else
                && now + ticks >= 500 && StartsAt(now + ticks - 500, newSector) && now + ticks - 500 >= seekEnd
                && forall t: nat :: StartsAt(t, newSector) && t >= seekEnd ==> now + ticks <= t + 500
      ensures 500 <= ticks < 32000
      ensures newSector / 32 != lastSector / 32 ==>
        var seekEnd := now + SeekTicks(lastSector, newSector); now + ticks >= seekEnd + RotationTicks(seekEnd) + 500
    {
      hide ModuloDiff; hide StartsAt; hide RotationTicks; hide Passed;
      var seek, rotation := TimeToSeek(newSector, now);
      var timeAfter := now + seek + rotation;
      RotationAligns(now + seek);
      assert seek == 0 <==> newSector / 32 == lastSector / 32;
      BufferHit(newSector, bufferInit, timeAfter);
      if !writing && seek == 0 && (timeAfter - bufferInit) / 500 > ModuloDiff(newSector, bufferInit / 500) {
        return 500;
      }
      NextStartAfter(now + seek, newSector);
      rotation := rotation + ModuloDiff(newSector, timeAfter / 500) * 500;
      ticks := seek + rotation + 500;
    }

    /** ReadRequest and WriteRequest; the device is idle, so that time has reached
        the completion of the last request. */
    method Request(newSector: nat, writing: bool, now: nat) returns (ticks: nat)
      requires Valid() && newSector < 1024 && now >= freeAt && !active
      modifies this
      ensures Valid() && active && lastSector == newSector
      ensures 0 < ticks < 32000 && freeAt == now + ticks
      ensures newSector / 32 == old(lastSector) / 32 ==> bufferInit == old(bufferInit)
      ensures newSector / 32 != old(lastSector) / 32 ==>
        bufferInit >= now + SeekTicks(old(lastSector), newSector) && bufferInit + 500 <= freeAt
    {
      ticks := ComputeLatency(newSector, writing, now);
      active := true;
      // UpdateLast
      var seek, rotate := TimeToSeek(newSector, now);
      RotationAligns(now + seek);
      if seek != 0 {
        bufferInit := now + seek + rotate;
      }
      lastSector := newSector;
      freeAt := now + ticks;
    }

    /** The completion interrupt, which comes at freeAt or later. */
    method CallBack(now: nat)
      requires Valid() && active && now >= freeAt
      modifies this`active
      ensures Valid() && !active
    {
      active := false;
    }
  }

  /** The test that ComputeLatency makes is whether the sector has gone by. */
  lemma BufferHit(sector: nat, since: nat, until: nat)
    requires since % 500 == 0 && until % 500 == 0 && since <= until
    ensures (until - since) / 500 > ModuloDiff(sector, since / 500) <==> Passed(sector, since, until)
  {
    NextStart(since, sector);
    var d := ModuloDiff(sector, since / 500);
    var s := since + d * 500;
    assert until - since == 500 * ((until - since) / 500);
    if (until - since) / 500 > d {
      assert StartsAt(s, sector) && s + 500 <= until;
    }
  }
}
