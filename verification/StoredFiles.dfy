/** Reconciling the stored files of the disk with the properties that name them. */
module StoredFiles {
  import opened Wrappers

  type Uuid = nat

  /** A file of the walk over the storage, and whether it could be read. */
  datatype Stored = Stored(id: Uuid, readable: bool)

  function OnDisk(walk: seq<Stored>): set<Uuid> {
    set file <- walk :: file.id
  }

  function Read(walk: seq<Stored>): set<Uuid> {
    set file <- walk | file.readable :: file.id
  }

  ghost predicate Distinct(walk: seq<Stored>) {
    forall i, j | 0 <= i < j < |walk| :: walk[i].id != walk[j].id
  }

  /** The readable files that have no property, as they are met. */
  function Missing(walk: seq<Stored>, properties: set<Uuid>): seq<Uuid> {
    if walk == [] then []
    else
      var last := walk[|walk| - 1];
      var before := Missing(walk[..|walk| - 1], properties);
      if last.readable && last.id !in properties then before + [last.id] else before
  }

  lemma {:induction false} MissingAreRead(walk: seq<Stored>, properties: set<Uuid>)
    ensures forall id: Uuid :: id in Missing(walk, properties) <==> id in Read(walk) && id !in properties
  {
    if walk != [] {
      var rest, last := walk[..|walk| - 1], walk[|walk| - 1];
      MissingAreRead(rest, properties);
      assert Read(walk) == Read(rest) + if last.readable then {last.id} else {} by {
        assert walk == rest + [last];
      }
      hide Read;
    }
  }

  lemma {:induction false} MissingOnce(walk: seq<Stored>, properties: set<Uuid>)
    requires Distinct(walk)
    ensures forall i, j | 0 <= i < j < |Missing(walk, properties)| ::
      Missing(walk, properties)[i] != Missing(walk, properties)[j]
  {
    if walk != [] {
      var rest, last := walk[..|walk| - 1], walk[|walk| - 1];
      MissingOnce(rest, properties);
      MissingAreRead(rest, properties);
      NotMetBefore(walk, |walk| - 1);
      hide Read, Distinct;
      var before := Missing(rest, properties);
      assert forall i | 0 <= i < |before| :: before[i] in before;
    }
  }

  class Device {
    var properties: set<Uuid>
    /** What was sent and unset, in this order. */
    var sent: seq<Uuid>
    var dropped: set<Uuid>

    constructor (properties: set<Uuid>, refused: set<Uuid>)
      ensures this.properties == properties && this.refused == refused && sent == [] && dropped == {}
    {
      this.properties, this.refused, sent, dropped := properties, refused, [], {};
    }

    /** The files whose property cannot be sent. */
    const refused: set<Uuid>

    method Send(id: Uuid) returns (ok: bool)
      modifies this
      ensures ok <==> id !in refused
      ensures dropped == old(dropped)
      ensures ok ==> properties == old(properties) + {id} && sent == old(sent) + [id]
      ensures !ok ==> properties == old(properties) && sent == old(sent)
    {
      if id in refused {
        return false;
      }
      properties, sent, ok := properties + {id}, sent + [id], true;
    }

    method Unset(id: Uuid)
      modifies this
      ensures properties == old(properties) - {id} && dropped == old(dropped) + {id} && sent == old(sent)
    {
      properties, dropped := properties - {id}, dropped + {id};
    }
  }

  /** Walks over the files until all were met or the task is cancelled, which drops the file that was just met.
      Sends the files that were read and have no property, in the order of the walk, and unsets the properties
      that no file was read for; unless sending fails, and then nothing is unset. */
  method SyncStoredFiles(device: Device, walk: seq<Stored>, cancel: Option<nat>) returns (ok: bool, met: nat)
    requires Distinct(walk) && device.sent == [] && device.dropped == {}
    modifies device
    ensures met <= |walk|
    ensures ok ==> met == if cancel.Some? && cancel.value < |walk| then cancel.value else |walk|
    ensures !ok ==> met < |walk| && walk[met].id in device.refused &&
                    walk[met].readable && walk[met].id !in old(device.properties)
    ensures ok ==>
      && device.sent == Missing(walk[..met], old(device.properties))
      && device.dropped == old(device.properties) - Read(walk[..met])
      && device.properties == Read(walk[..met])
    ensures !ok ==>
      && device.dropped == {} && device.sent == Missing(walk[..met], old(device.properties))
      && device.properties == old(device.properties) + set id <- device.sent
    ensures device.properties == OnDisk(walk) <==> ok && met == |walk| && forall file <- walk :: file.readable
  {
    var left := device.properties;
    met := 0;
    while met < |walk|
      invariant met <= |walk| && (cancel.Some? ==> met <= cancel.value)
      invariant left == old(device.properties) - Read(walk[..met])
      invariant device.sent == Missing(walk[..met], old(device.properties)) && device.dropped == {}
      invariant device.properties == old(device.properties) + set id <- device.sent
    {
      var stored := walk[met];
      if cancel == Some(met) {
        break;
      }
      assert walk[..met + 1] == walk[..met] + [stored];
      if stored.readable {
        var present := stored.id in left;
        left := left - {stored.id};
        NotMetBefore(walk, met);
        if !present {
          ok := device.Send(stored.id);
          if !ok {
            assert walk[met] in walk;
            assert stored.id in OnDisk(walk) && stored.id !in Read(walk[..met]);
            MissingAreRead(walk[..met], old(device.properties));
            assert stored.id !in device.properties;
            return;
          }
        }
      }
      assert walk[..met + 1][..met] == walk[..met];
      met := met + 1;
    }
    ghost var unread := left;
    MissingAreRead(walk[..met], old(device.properties));
    while left != {}
      invariant left <= unread && device.dropped == unread - left
      invariant device.sent == Missing(walk[..met], old(device.properties))
      invariant device.properties == (old(device.properties) + set id <- device.sent) - (unread - left)
    {
      var id :| id in left;
      device.Unset(id);
      left := left - {id};
    }
    ok := true;
    assert device.properties == Read(walk[..met]);
    AgreesExactlyWhenAllRead(walk, met);
  }

  lemma NotMetBefore(walk: seq<Stored>, met: nat)
    requires Distinct(walk) && met < |walk|
    ensures walk[met].id !in Read(walk[..met])
  {
  }

  /** The files that were read are all those of the disk if and only if the walk met every file and could read
      it. A file that was not met or not read is not among them, so a run that unsets properties unsets its own. */
  lemma AgreesExactlyWhenAllRead(walk: seq<Stored>, met: nat)
    requires Distinct(walk) && met <= |walk|
    ensures (Read(walk[..met]) == OnDisk(walk)) <==> (met == |walk| && forall file <- walk :: file.readable)
    ensures forall k | 0 <= k < |walk| :: (k >= met || !walk[k].readable) ==> walk[k].id !in Read(walk[..met])
  {
    forall k | 0 <= k < |walk| && (k >= met || !walk[k].readable)
      ensures walk[k].id !in Read(walk[..met]) && walk[k].id in OnDisk(walk)
    {
      assert walk[k] in walk;
    }
    if met == |walk| && forall file <- walk :: file.readable {
      assert walk[..met] == walk;
    }
    if met < |walk| {
      assert walk[met].id in OnDisk(walk);
    }
  }

  /** A file whose property was right can lose it, when it could not be read just then. */
  lemma UnreadFileLosesItsProperty()
    ensures var walk := [Stored(7, false)]; OnDisk(walk) == {7} && Read(walk) != {7} && {7} - Read(walk) == {7}
  {
    var walk := [Stored(7, false)];
    assert walk[0] in walk && walk[0].id == 7;
  }
}
