/** objects/createStationary.js: a decoration that never moves, such as
    the fish and food sprites on the menu buttons. */
module CreateStationary {
  import opened Wrappers
  import opened Globals
  import opened Objects

  /** createStationary(img, x, y): no size, animation row
      quality / 100 - 1 = 0. */
  method New(image: ClipSet, x: real, y: real) returns (s: Entity)
    ensures fresh(s)
    ensures s.kind == Stationary && s.image == image && s.x == x && s.y == y
    ensures s.width.None? && s.height.None? && s.animationIndex == 0.0
    ensures s.targetX == -1.0 && s.targetY == -1.0
  {
    s := new Entity(Stationary, image, x, y, None, None);
    s.animationIndex := s.quality / 100.0 - 1.0;
  }

  /** With the untouched target -1, a stationary entity is drawn mirrored
      exactly when it lies at x <= -1. */
  lemma MirroredAtSentinel(x: real, hp: real)
    ensures StateOf(Stationary, x, -1.0, hp).mirrored <==> x <= -1.0
    ensures !StateOf(Stationary, x, -1.0, hp).hungry && !StateOf(Stationary, x, -1.0, hp).dead
  {
    assert Round(-1.0) == -1;
  }

  /** update() does nothing. */
  method Update(self: Entity)
    ensures unchanged(self)
  {
  }
}
