/** objects/createPlayOnce.js: an animation that plays its row once and
    then removes itself. */
module CreatePlayOnce {
  import opened Wrappers
  import opened Objects
  import opened Entry

  /** The state of a play-once fresh from its constructor. */
  ghost predicate IsNew(p: Entity, image: ClipSet, x: real, y: real)
    reads p
  {
    p.kind == PlayOnce && p.image == image && p.x == x && p.y == y &&
    p.width.None? && p.height.None? &&
    p.animationIndex == 0.0 && p.drawFPS == 60.0 && p.currentFrame == 0.0 && p.previousFrame.None?
  }

  /** constructor(img, x, y): animation row quality / 100 - 1 = 0, drawn at
      60 frames per second. */
  method New(image: ClipSet, x: real, y: real) returns (p: Entity)
    ensures fresh(p)
    ensures IsNew(p, image, x, y)
  {
    p := new Entity(PlayOnce, image, x, y, None, None);
    p.animationIndex := p.quality / 100.0 - 1.0;
    p.drawFPS := 60.0;
  }

  /** previousFrame after `??=`: the stored frame, or the current one on the
      first draw. */
  function Previous(previousFrame: Option<real>, currentFrame: real): real
  {
    if previousFrame.Some? then previousFrame.value else currentFrame
  }

  /** draw(delta): a frame counter below the remembered one means the clock
      wrapped on the previous draw; then the entity removes itself and draws
      nothing. Otherwise it remembers the counter and draws as any entity. */
  method Draw(self: Entity, reg: Registry, delta: Option<real>) returns (out: DrawOutcome)
    requires self.kind == PlayOnce
    modifies self`previousFrame, self`currentFrame, reg
    ensures var pf := Previous(old(self.previousFrame), old(self.currentFrame));
      pf > old(self.currentFrame) ==>
        out == Removed && reg.entries == AfterRemoval(old(reg.entries), self) &&
        self.currentFrame == old(self.currentFrame) && self.previousFrame == Some(pf)
    ensures var pf := Previous(old(self.previousFrame), old(self.currentFrame));
      var clip := self.image.default;
      pf <= old(self.currentFrame) ==>
        self.previousFrame == Some(old(self.currentFrame)) && reg.entries == old(reg.entries) &&
        (delta.None? ==> out == Skipped && self.currentFrame == old(self.currentFrame)) &&
        (delta.Some? && !(0 <= old(self.currentFrame).Floor < |clip.data|) ==>
           out == Threw && self.currentFrame == old(self.currentFrame)) &&
        (delta.Some? && 0 <= old(self.currentFrame).Floor < |clip.data| ==>
           out == Drawn(old(self.currentFrame).Floor, self.State().mirrored) &&
           self.currentFrame == AdvanceFrame(old(self.currentFrame), delta.value / 1000.0 * self.drawFPS,
                                             self.animationIndex * clip.columns as real, clip.columns))
    ensures old(reg.Valid()) ==> reg.Valid()
  {
    if self.previousFrame.None? {
      self.previousFrame := Some(self.currentFrame);
    }
    if self.previousFrame.value > self.currentFrame {
      var _ := reg.HandleRemoval(self);
      return Removed;
    }
    self.previousFrame := Some(self.currentFrame);
    out := self.Draw(delta);
  }

  /** After a draw that advanced the clock from `frame`, the next draw
      removes the entity exactly when the clock wrapped back to a row base
      below `frame`. A single step of a whole row or more from the base
      itself wraps unnoticed. */
  lemma NextDrawRemoves(frame: real, advance: real, base: real, columns: nat)
    requires base <= frame && 0.0 <= advance
    ensures Previous(Some(frame), AdvanceFrame(frame, advance, base, columns)) > AdvanceFrame(frame, advance, base, columns)
      <==> frame + advance >= base + columns as real && base < frame
  {
  }

  /** update(delta) does nothing. */
  method Update(self: Entity)
    ensures unchanged(self)
  {
  }
}
