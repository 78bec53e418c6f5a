/** `connection/monitor.py`: the client's transfer counters. `transferred` holds the
    bytes received and sent so far, `speed` the last per-second sample, each as a
    two-element list updated in place. */
module Monitor {

  /** The counters after `download` and `upload` more bytes. */
  function Added(counters: seq<int>, download: int, upload: int): (r: seq<int>)
    requires |counters| == 2
    ensures |r| == 2
    ensures r[0] - counters[0] == download && r[1] - counters[1] == upload
  {
    [counters[0] + download, counters[1] + upload]
  }

  /** A speed sample: how far each counter moved since the snapshot. */
  function Difference(snapshot: seq<int>, counters: seq<int>): (r: seq<int>)
    requires |snapshot| == 2 && |counters| == 2
    ensures |r| == 2
    ensures snapshot[0] + r[0] == counters[0] && snapshot[1] + r[1] == counters[1]
  {
    [counters[0] - snapshot[0], counters[1] - snapshot[1]]
  }

  /** Transfers of non-negative sizes never make a counter go down. */
  lemma AddedNeverDecreases(counters: seq<int>, download: int, upload: int)
    requires |counters| == 2 && download >= 0 && upload >= 0
    ensures forall i | 0 <= i < 2 :: Added(counters, download, upload)[i] >= counters[i]
  {
  }

  /** A sample taken around transfers reports exactly what they added. */
  lemma SampleMeasuresTransfers(counters: seq<int>, download: int, upload: int)
    requires |counters| == 2
    ensures Difference(counters, Added(counters, download, upload)) == [download, upload]
  {
  }

  /** Two transfers add up as one of their total size, so a sample over several
      transfers is their sum. */
  lemma AddedAccumulates(counters: seq<int>, d1: int, u1: int, d2: int, u2: int)
    requires |counters| == 2
    ensures Added(Added(counters, d1, u1), d2, u2) == Added(counters, d1 + d2, u1 + u2)
  {
  }

  class SpeedMonitor {
    const transferred: array<int>
    const speed: array<int>

    predicate Valid()
      reads this
    {
      transferred.Length == 2 && speed.Length == 2 && transferred != speed
    }

    /** Both lists start at `[0, 0]`. */
    constructor ()
      ensures Valid() && fresh(transferred) && fresh(speed)
      ensures transferred[..] == [0, 0] && speed[..] == [0, 0]
    {
      transferred := new int[2](_ => 0);
      speed := new int[2](_ => 0);
    }

    /** `update_transfer(download_bytes, upload_bytes)`: adds to both counters and
        changes nothing else. */
    method UpdateTransfer(download: int, upload: int)
      requires Valid()
      modifies transferred
      ensures transferred[..] == Added(old(transferred[..]), download, upload)
    {
      transferred[0] := transferred[0] + download;
      transferred[1] := transferred[1] + upload;
    }

    /** The reading of both counters at the top of `check_speed`'s loop. */
    method Snapshot() returns (download: int, upload: int)
      requires Valid()
      ensures [download, upload] == transferred[..]
    {
      download, upload := transferred[0], transferred[1];
      assert transferred[..] == [transferred[0], transferred[1]];
    }

    /** The update after the wait: each speed is the counter's growth since the
        snapshot. */
    method Sample(download: int, upload: int)
      requires Valid()
      modifies speed
      ensures speed[..] == Difference([download, upload], transferred[..])
    {
      speed[0] := transferred[0] - download;
      speed[1] := transferred[1] - upload;
    }

    /** One turn of `check_speed`, with the transfers made during the one-second
        wait given as their totals: the sample is exactly those totals. */
    method CheckSpeedStep(download: int, upload: int)
      requires Valid()
      modifies transferred, speed
      ensures transferred[..] == Added(old(transferred[..]), download, upload)
      ensures speed[..] == [download, upload]
    {
      var download0, upload0 := Snapshot();
      UpdateTransfer(download, upload);
      Sample(download0, upload0);
      SampleMeasuresTransfers(old(transferred[..]), download, upload);
    }
  }
}
