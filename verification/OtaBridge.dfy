/** The update half of the bridge, stepping its fields as messages arrive, and the
    note file that carries an approval over a restart. */
module OtaBridge {
  import opened Consent
  import opened Wrappers

  /** The note of an approved version, across our own restart. */
  class PendingFirmware {
    var note: Option<Note>

    constructor ()
      ensures note == None
    {
      note := None;
    }

    method Set(version: string)
      modifies this
      ensures note == NoteAfter(old(note), Approve(version)) == Some(Note(version, 0))
    {
      note := Some(Note(version, 0));
    }

    method Read() returns (r: Option<Note>)
      ensures r == if note.Some? && note.value.version != "" then note else None
    {
      if note.None? { return None; }
      if note.value.version == "" { return None; }
      return note;
    }

    method BumpTries()
      modifies this
      ensures note == NoteAfter(old(note), Bump)
    {
      var r := Read();
      if r.None? { return; }
      note := Some(r.value.(tries := r.value.tries + 1));
    }

    method Clear()
      modifies this
      ensures note == NoteAfter(old(note), Spend) == None
    {
      note := None;
    }

    method Take() returns (version: Option<string>)
      modifies this
      ensures note == None
      ensures version == if old(note).Some? && old(note).value.version != "" then Some(old(note).value.version) else None
    {
      var r := Read();
      Clear();
      if r.None? { return None; }
      return Some(r.value.version);
    }
  }

  /** One link to one board: what it has staged, what it has learnt of the board, and
      everything it has done. */
  class Bridge {
    const c: Config
    const pending: PendingFirmware
    const first: string
    var app: string
    var done: seq<Effect>
    var flow: Flow
    var manifest: Option<Manifest>
    var appUpdate: Option<string>
    var proto: Option<int>
    var fw: string
    var failedAt: Option<int>
    var lastQueryAt: Option<int>
    var report: Option<string>

    ghost function Model(): State
      reads this, pending
    {
      State(first, app, pending.note, done, flow, manifest, appUpdate, proto, fw, failedAt, lastQueryAt, report)
    }

    constructor (c: Config, pending: PendingFirmware, first: string, app: string, done: seq<Effect>,
                 report: Option<string>)
      ensures this.c == c && this.pending == pending
      ensures Model() == State(first, app, pending.note, done, On, None, None, None, "", None, None, report)
    {
      this.c, this.pending, this.first, this.app, this.done := c, pending, first, app, done;
      flow, manifest, appUpdate, proto, fw := On, None, None, None, "";
      failedAt, lastQueryAt, this.report := None, None, report;
    }

    method Write(m: Message)
      modifies this`done
      ensures Model() == Do(old(Model()), Say(m))
    {
      done := done + [Say(m)];
    }

    method OtaReset(now: int)
      modifies this`manifest, this`failedAt
      ensures Model() == Reset(old(Model()), now)
    {
      manifest := None;
      failedAt := Some(now);
    }

    method OnOtaQuery(cur: string, now: int, q: QueryAnswer)
      modifies this
      ensures Model() == Query(c, old(Model()), cur, now, q)
    {
      hide Do, FloorMet, Decide;
      lastQueryAt := Some(now);
      failedAt := None;
      if cur != "" && fw == "" {
        fw := cur;
      }
      if proto.Some? && proto.value > c.proto {
        OtaReset(now);
        Write(OtaNone(None));
        return;
      }
      if q.manifest.Some? && !FloorMet(c, q.manifest.value) {
        OtaReset(now);
        Write(OtaNone(None));
        return;
      }
      DecideOffer(cur, now, q);
    }

    method DecideOffer(cur: string, now: int, q: QueryAnswer)
      modifies this
      ensures Model() == Decide(c, old(Model()), cur, now, q)
    {
      hide Do, Newer;
      var m := q.manifest;
      appUpdate := Available(q.signed);
      if m.None? || !Newer(c, m.value.version, cur) {
        manifest := None;
        Write(OtaNone(appUpdate));
        return;
      }
      manifest := m;
      if Newer(c, m.value.version, app) && c.selfUpdates && c.platformKnown && appUpdate.None? {
        OtaReset(now);
        Write(OtaNone(appUpdate));
        return;
      }
      Write(OtaAvail(m.value.version, m.value.size, m.value.sha256, appUpdate));
    }

    function Available(signed: Option<Signed>): Option<string>
      reads this
    {
      if !c.selfUpdates || signed.None? || !Newer(c, signed.value.version, app) || signed.value.artifact.None?
      then None else Some(signed.value.version)
    }

    method OnOtaFlash(now: int, f: FlashAnswer)
      modifies this, pending
      ensures Model() == FlashNow(c, old(Model()), now, f)
    {
      if manifest.Some? && appUpdate.Some? && c.selfUpdates {
        var version := appUpdate.value;
        appUpdate := None;
        if c.remembers {
          pending.Set(manifest.value.version);
          done := done + [Approve(manifest.value.version)];
        }
        if f.updated {
          done := done + [Replace(version)];
          app := version;
          flow := Restarted;
          return;
        }
        if c.remembers {
          var _ := pending.Take();
          done := done + [Spend];
        }
      }
      Install(now, f);
    }

    method Install(now: int, f: FlashAnswer)
      modifies this
      ensures Model() == WriteImage(c, old(Model()), now, f)
    {
      if manifest.None? {
        Write(OtaError("nothing staged"));
        return;
      }
      if !c.flashes {
        Write(OtaError("no flasher configured"));
        return;
      }
      if f.firmware.None? {
        OtaReset(now);
        Write(OtaError("download failed"));
        return;
      }
      var blob := f.firmware.value;
      if |blob| != manifest.value.size {
        OtaReset(now);
        Write(OtaError("size mismatch"));
        return;
      }
      if c.sha256(blob) != c.plain(manifest.value.sha256) {
        OtaReset(now);
        Write(OtaError("sha256 mismatch"));
        return;
      }
      var m := manifest.value;
      OtaReset(now);
      Write(OtaBegin(m.version));
      done := done + [Flash(m, blob)];
      flow := if f.comesBack then On else Reflashed;
    }

    method ResumePending(now: int, q: QueryAnswer, f: FlashAnswer)
      modifies this, pending
      ensures Model() == Resume(c, old(Model()), now, q, f)
    {
      hide Query, FlashNow;
      if !c.remembers { return; }
      var note := pending.Read();
      if note.None? { return; }
      var version, tries := note.value.version, note.value.tries;
      ghost var start := Model();
      QueryApps(c, start, if fw == "" then "0.0.0" else fw, now, q);
      OnOtaQuery(if fw == "" then "0.0.0" else fw, now, q);
      if manifest.None? {
        if tries + 1 >= RESUME_TRIES {
          pending.Clear();
          done := done + [Spend];
          Write(OtaError("could not read the release feed"));
        } else {
          pending.BumpTries();
          done := done + [Bump];
        }
        OtaReset(now);
        return;
      }
      pending.Clear();
      done := done + [Spend];
      if manifest.value.version != version {
        OtaReset(now);
        return;
      }
      Write(OtaResume(version));
      OnOtaFlash(now, f);
    }

    method GreetBoard(a: Answers)
      modifies this, pending
      ensures Model() == Greet(c, old(Model()), a)
    {
      hide Resume;
      Write(Welcome);
      if report.Some? {
        Write(OtaError(report.value));
        report := None;
      }
      if proto.Some? {
        ResumePending(a.now, a.q1, a.f1);
      }
    }

    method Offer(fw: string, a: Answers)
      modifies this
      ensures Model() == OfferIfNewer(c, old(Model()), fw, a)
    {
      hide Query;
      if fw == "" { return; }
      if lastQueryAt.Some? && a.now - lastQueryAt.value < QUIET_S { return; }
      OnOtaQuery(fw, a.now, a.q2);
    }

    method RetryOfferIfFailed(a: Answers)
      requires flow.On?
      modifies this
      ensures Model() == Next(c, old(Model()), RetryTick(a))
    {
      hide Query;
      if failedAt.None? || fw == "" { return; }
      if a.now - failedAt.value < RETRY_AFTER_S { return; }
      failedAt := None;
      OnOtaQuery(fw, a.now, a.q2);
    }

    /** One message from the board, on a link that is still up. */
    method OnMessage(v: Option<int>, kind: Kind, a: Answers)
      requires flow.On?
      modifies this, pending
      ensures Model() == Next(c, old(Model()), Heard(v, kind, a))
    {
      hide Query, Resume, FlashNow, Greet, OfferIfNewer;
      if proto.None? && v.Some? {
        proto := v;
        if !kind.Hello? {
          ResumePending(a.now, a.q1, a.f1);
        }
      }
      if !flow.On? { return; }
      match kind {
        case Ping => Write(Pong);
        case Asked(cur) => OnOtaQuery(cur, a.now, a.q2);
        case Tap =>
          done := done + [Tapped(if manifest.Some? then Some(manifest.value.version) else None)];
          OnOtaFlash(a.now, a.f2);
        case Hello(boardFw) =>
          proto := v;
          fw := boardFw;
          GreetBoard(a);
          if flow.On? {
            Offer(boardFw, a);
          }
        case Other =>
      }
    }
  }
}
