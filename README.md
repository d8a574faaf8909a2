# Maze game core: cubicmap mesh, pixel decoding, collision and input state

A Dafny model of the game logic in the first-person maze lesson
`03_challenge_maze3d/lessons/06_maze_game_camera.c`.

- **Image data** (`image_data.dfy`, module `ImageData`). `LoadImage` accepts a file only when the text after its last dot is one of six extensions. `GetImageData` decodes each pixel of an uncompressed image into an RGBA `Color`, format by format. An unknown format leaves the pixel unset (`None`).
- **Cubicmap mesh** (`cubicmap_mesh.dfy`, module `CubicmapMesh`). `GenMeshCubicmap` walks the map image row by row. A pure-white cell is a wall cube: it gets top and bottom faces, plus each side face whose neighbour is outside the map or pure black. A pure-black cell gets a ceiling and a floor. Any other colour gets nothing. The method fills scratch arrays of 36 vertices per cell and then compacts them into flat float arrays. The faces are specified by the functions `CellFaces`, `RowsFaces` and `MeshFaces`. The method is proved to write exactly the vertex, normal and texcoord streams of those faces. The normals are the ones the code stores, including n6 on the face toward z+1 and n5 on the face toward z−1 (see Findings).
- **Mesh facts** (`cubicmap_mesh_facts.dfy`, module `CubicmapMeshFacts`):
  - the face specification agrees with an independent per-face statement (`Emits`);
  - each face's triangle winding matches its outward normal, which is the stored normal except on the two faces along z (see Findings);
  - every vertex lies in the map's box;
  - every texcoord lies in the atlas;
  - every normal is a unit axis.
- **Collision** (`collision.dfy`, module `Collision`):
  - `CheckCollisionCircleRec` is modelled stage by stage. It is proved equal to the nearest-point test: the squared distance from the circle's centre to the nearest point of the rectangle is at most r².
  - The rectangle centre uses the C integer halving of the width.
  - The collision scan of the main loop is modelled as written and in corrected form. Each restores the pre-move camera position exactly when some cell collides.
- **Input state** (`input_state.dfy`, module `Input`):
  - the double-buffered key and mouse-button arrays as a class;
  - the GLFW callbacks that write them;
  - the polling step that copies current into previous;
  - the press tests.
- **Camera control** (`camera_control.dfy`, module `CameraControl`):
  - the mouse-driven yaw and pitch, with the pitch clamp at ±85°;
  - the `isMoving` scan over the six move keys;
  - the swing counter, which advances exactly on frames where a move key is held.

Floats are exact reals. Bytes are `bv8`, and 16-bit pixels are `bv16`.

Three points of the code that the model follows as written:
- **Collider test.** The scan treats a cell as a collider when its red channel alone is 255 (line 330), so a red cell that is not a wall also blocks the player (`IsCollider`, `WallCellsCollide`).
- **Scan bound.** Both loops of the collision scan are bounded by the map width (lines 326 and 328; see Findings).
- **Front face.** The face the code calls front is the one toward z+1. It is drawn when the neighbour at z+1 is pure black or lies outside the map (lines 923-928).

## Model

| member | source | states |
|---|---|---|
| ImageData.Stride | 03_challenge_maze3d/lessons/06_maze_game_camera.c:1472-1532 | k advances by a positive amount exactly for the seven known formats: 1 for grayscale and for the 16-bit formats (which index words), 2 for gray-alpha, 3 for R8G8B8, 4 for R8G8B8A8 |
| ImageData.Word | 03_challenge_maze3d/lessons/06_maze_game_camera.c:1485 | the 16-bit pixel read at word index k has bytes 2k and 2k+1 as its low and high bytes |
| ImageData.DecodeAt | 03_challenge_maze3d/lessons/06_maze_game_camera.c:1463-1535 | the switch decodes a pixel exactly for the seven known formats; grayscale, R5G6B5 and R8G8B8 pixels come out opaque |
| ImageData.PixelInData | 03_challenge_maze3d/lessons/06_maze_game_camera.c:1459-1533 | the byte offset k of pixel i (stride × i) leaves room for the whole pixel in a buffer of width × height pixels |
| ImageData.DecodeR5G6B5 | 03_challenge_maze3d/lessons/06_maze_game_camera.c:1494-1504 | red and blue are multiples of 8, green a multiple of 4 (integer 255/31 = 8, 255/63 = 4), alpha is opaque |
| ImageData.DecodeR5G5B5A1 | 03_challenge_maze3d/lessons/06_maze_game_camera.c:1483-1493 | the three colour channels are multiples of 8 and alpha is 0 or 255 |
| ImageData.DecodeR4G4B4A4 | 03_challenge_maze3d/lessons/06_maze_game_camera.c:1505-1515 | every channel is a multiple of 17 (255/15) |
| ImageData.Pixel | 03_challenge_maze3d/lessons/06_maze_game_camera.c:1463-1535 | a pixel is decoded exactly when the format is one of the seven uncompressed formats; otherwise it is left unset |
| ImageData.GetImageData | 03_challenge_maze3d/lessons/06_maze_game_camera.c:1455-1539 | returns width × height pixels, pixel i being the decoding at byte offset stride × i, with k advanced by the stride in the loop |
| ImageData.DecodeGrayscale | 03_challenge_maze3d/lessons/06_maze_game_camera.c:1465-1473 | a grayscale pixel copies its byte to r, g and b with alpha 255 |
| ImageData.DecodeGrayAlpha | 03_challenge_maze3d/lessons/06_maze_game_camera.c:1474-1482 | gray-alpha pixel i copies byte 2i to r, g and b and takes byte 2i+1 as alpha |
| ImageData.DecodeR5G6B5Pixel | 03_challenge_maze3d/lessons/06_maze_game_camera.c:1494-1504 | R5G6B5 pixel i is the R5G6B5 decoding of the i-th 16-bit word |
| ImageData.DecodeR5G5B5A1Pixel | 03_challenge_maze3d/lessons/06_maze_game_camera.c:1483-1493 | R5G5B5A1 pixel i is the R5G5B5A1 decoding of the i-th 16-bit word |
| ImageData.DecodeR4G4B4A4Pixel | 03_challenge_maze3d/lessons/06_maze_game_camera.c:1505-1515 | R4G4B4A4 pixel i is the R4G4B4A4 decoding of the i-th 16-bit word |
| ImageData.DecodeR8G8B8A8RoundTrip | 03_challenge_maze3d/lessons/06_maze_game_camera.c:1516-1524 | decoding the RGBA bytes of any colour list gives back each colour |
| ImageData.DecodeR8G8B8RoundTrip | 03_challenge_maze3d/lessons/06_maze_game_camera.c:1525-1533 | decoding RGB bytes gives back each colour with alpha forced to 255 |
| ImageData.R5G6B5Lossless | 03_challenge_maze3d/lessons/06_maze_game_camera.c:1494-1504 | distinct 16-bit pixels decode to distinct colours: re-encoding recovers the word |
| ImageData.R5G5B5A1Lossless | 03_challenge_maze3d/lessons/06_maze_game_camera.c:1483-1493 | re-encoding the decoded colour recovers the 16-bit word |
| ImageData.R4G4B4A4Lossless | 03_challenge_maze3d/lessons/06_maze_game_camera.c:1505-1515 | re-encoding the decoded colour recovers the 16-bit word |
| ImageData.R4G4B4A4RoundTrip | 03_challenge_maze3d/lessons/06_maze_game_camera.c:1505-1515 | a colour whose channels are multiples of 17 survives encoding then decoding |
| ImageData.LastDot | 03_challenge_maze3d/lessons/06_maze_game_camera.c:591 | finds the last '.' of the name, or reports that there is none |
| ImageData.LoadImage | 03_challenge_maze3d/lessons/06_maze_game_camera.c:586-624 | the result is the zero image unless the extension is supported and the file opened; then it is the decoded size with format R8G8B8A8 |
| ImageData.LoadImageHasPixelData | 03_challenge_maze3d/lessons/06_maze_game_camera.c:605-617 | whatever the name and file, the loaded image has a buffer for all its pixels and a decodable format (or no pixels) |
| CubicmapMesh.CornerPosOffsets | 03_challenge_maze3d/lessons/06_maze_game_camera.c:856-863 | each corner v1..v8 lies half a cube either side of the cell centre (s·x, s·z) on both axes, on the ground or at height s |
| CubicmapMesh.FaceCornersCoverSide | 03_challenge_maze3d/lessons/06_maze_game_camera.c:873-1104 | each face is two proper triangles whose corners all lie on the face's own side of the cube and together use all four corners of that side |
| CubicmapMesh.FaceUVCornersCoverRect | 03_challenge_maze3d/lessons/06_maze_game_camera.c:873-1104 | each face's six texcoords form two proper triangles that together use all four corners of its atlas rectangle |
| CubicmapMesh.FaceAtlas | 03_challenge_maze3d/lessons/06_maze_game_camera.c:844-849 | every face samples a half-by-half quadrant of the atlas: the sides the lower row, top, bottom, ceiling and floor the upper row |
| CubicmapMesh.FaceNormalAsWritten | 03_challenge_maze3d/lessons/06_maze_game_camera.c:829-834 | the normal the code stores for each face is one of n1..n6, along the face's own axis, pointing up exactly for the top and the floor |
| CubicmapMesh.CellIndexIsOffset | 03_challenge_maze3d/lessons/06_maze_game_camera.c:866-868 | the cell index used by the model is the row-major offset z × width + x |
| CubicmapMesh.CellIndexInRange | 03_challenge_maze3d/lessons/06_maze_game_camera.c:866-868 | every cell of the map indexes inside the width × height pixel buffer |
| CubicmapMesh.GridOf | 03_challenge_maze3d/lessons/06_maze_game_camera.c:808-811 | the grid has the image's size and cell (x, z) is the decoded pixel z × width + x |
| CubicmapMesh.CellHeld | 03_challenge_maze3d/lessons/06_maze_game_camera.c:866-868 | the buffer from GetImageData holds cell (x, z) at its row-major index |
| CubicmapMesh.GridOfHolds | 03_challenge_maze3d/lessons/06_maze_game_camera.c:808 | the decoded buffer holds the whole grid |
| CubicmapMesh.ReadCell | 03_challenge_maze3d/lessons/06_maze_game_camera.c:866-868 | the colour read from the buffer is the grid's cell colour |
| CubicmapMesh.FrontVisible | 03_challenge_maze3d/lessons/06_maze_game_camera.c:923-926 | the front test holds exactly when the cell toward z+1 is outside the map or pure black |
| CubicmapMesh.BackVisible | 03_challenge_maze3d/lessons/06_maze_game_camera.c:955-958 | the back test holds exactly when the cell toward z−1 is outside the map or pure black |
| CubicmapMesh.RightVisible | 03_challenge_maze3d/lessons/06_maze_game_camera.c:987-990 | the right test holds exactly when the cell toward x+1 is outside the map or pure black |
| CubicmapMesh.LeftVisible | 03_challenge_maze3d/lessons/06_maze_game_camera.c:1019-1022 | the left test holds exactly when the cell toward x−1 is outside the map or pure black |
| CubicmapMesh.ReadSides | 03_challenge_maze3d/lessons/06_maze_game_camera.c:923-1023 | the four side tests evaluated on the pixel buffer equal the grid's visibility predicates |
| CubicmapMesh.InWallFaces | 03_challenge_maze3d/lessons/06_maze_game_camera.c:873-1049 | a wall cube has top and bottom always and each side exactly when its test holds |
| CubicmapMesh.CellFaces | 03_challenge_maze3d/lessons/06_maze_game_camera.c:865-1105 | a cell contributes at most six faces, all at its own position |
| CubicmapMesh.WallCellFacesExact | 03_challenge_maze3d/lessons/06_maze_game_camera.c:865-1050 | for a pure-white cell, a face is emitted exactly when the independent statement Emits says so |
| CubicmapMesh.OpenCellFacesExact | 03_challenge_maze3d/lessons/06_maze_game_camera.c:1051-1105 | a pure-black cell emits exactly ceiling and floor; any other non-white cell emits nothing |
| CubicmapMesh.CellFacesExact | 03_challenge_maze3d/lessons/06_maze_game_camera.c:865-1105 | face k of cell (x, z) is emitted if and only if Emits(k, x, z) |
| CubicmapMesh.CellFacesByColour | 03_challenge_maze3d/lessons/06_maze_game_camera.c:865-1105 | white cells start with top then bottom, black cells give exactly ceiling then floor, other colours give nothing |
| CubicmapMesh.RowFaces | 03_challenge_maze3d/lessons/06_maze_game_camera.c:853-1106 | the first n cells of a row contribute at most 6n faces |
| CubicmapMesh.RowsFaces | 03_challenge_maze3d/lessons/06_maze_game_camera.c:851-1107 | the first rows contribute at most 36 vertices per cell scanned |
| CubicmapMesh.RowsRoomIsCapacity | 03_challenge_maze3d/lessons/06_maze_game_camera.c:814-826 | the room of 36 vertices per cell is exactly the scratch size width × height × 12 × 3 |
| CubicmapMesh.StreamsAt | 03_challenge_maze3d/lessons/06_maze_game_camera.c:874-896 | vertex 6i + j of each stream is vertex j of face i |
| CubicmapMesh.Flatten3At | 03_challenge_maze3d/lessons/06_maze_game_camera.c:1118-1136 | float 3i, 3i+1, 3i+2 of a flattened stream are x, y, z of element i |
| CubicmapMesh.Flatten2At | 03_challenge_maze3d/lessons/06_maze_game_camera.c:1140-1146 | float 2i, 2i+1 of flattened texcoords are x, y of element i |
| CubicmapMesh.WriteSix | 03_challenge_maze3d/lessons/06_maze_game_camera.c:874-880 | six consecutive stores append six values after the counter and keep what came before |
| CubicmapMesh.EmitFace | 03_challenge_maze3d/lessons/06_maze_game_camera.c:873-896 | one face writes its six vertices, the code's normal for its kind and its six texcoords at the counter, and advances it by 6 |
| CubicmapMesh.EmitOptFace | 03_challenge_maze3d/lessons/06_maze_game_camera.c:923-953 | a side face is written exactly when its test holds |
| CubicmapMesh.EmitSides | 03_challenge_maze3d/lessons/06_maze_game_camera.c:923-1049 | the four side faces are written in the order front, back, right, left, each when visible |
| CubicmapMesh.EmitWallCell | 03_challenge_maze3d/lessons/06_maze_game_camera.c:866-1050 | a wall cube writes top, bottom, then its visible sides |
| CubicmapMesh.EmitCell | 03_challenge_maze3d/lessons/06_maze_game_camera.c:865-1105 | one cell appends exactly its faces' streams, at most 36 vertices |
| CubicmapMesh.EmitRow | 03_challenge_maze3d/lessons/06_maze_game_camera.c:853-1106 | the inner loop appends the faces of one row, cell by cell |
| CubicmapMesh.EmitRows | 03_challenge_maze3d/lessons/06_maze_game_camera.c:851-1107 | the outer loop leaves the scratch arrays holding the streams of all faces of the map |
| CubicmapMesh.FillScratch | 03_challenge_maze3d/lessons/06_maze_game_camera.c:808-1107 | the scratch arrays are sized width × height × 12 × 3 and hold every emitted vertex, normal and texcoord in order |
| CubicmapMesh.CompactVec3 | 03_challenge_maze3d/lessons/06_maze_game_camera.c:1118-1136 | the compacted float array is the first count vectors, flattened x, y, z |
| CubicmapMesh.CompactVec2 | 03_challenge_maze3d/lessons/06_maze_game_camera.c:1140-1146 | the compacted float array is the first count texcoords, flattened x, y |
| CubicmapMesh.GenMeshCubicmap | 03_challenge_maze3d/lessons/06_maze_game_camera.c:804-1157 | the mesh's vertex count is 6 per face and within the worst-case bound; its arrays are exactly the flattened face streams, normals as the code stores them |
| CubicmapMeshFacts.CellFacesMember | 03_challenge_maze3d/lessons/06_maze_game_camera.c:865-1105 | a face belongs to a cell's faces iff it is at that cell and Emits holds |
| CubicmapMeshFacts.MeshFacesMember | 03_challenge_maze3d/lessons/06_maze_game_camera.c:851-1107 | a face belongs to the mesh iff its cell is on the map and that cell contributes it |
| CubicmapMeshFacts.MeshFacesExact | 03_challenge_maze3d/lessons/06_maze_game_camera.c:851-1107 | face k at (x, z) is in the mesh iff (x, z) is on the map and Emits(k, x, z) |
| CubicmapMeshFacts.MeshFacesWithin | 03_challenge_maze3d/lessons/06_maze_game_camera.c:851-853 | every face of the mesh lies on the map |
| CubicmapMeshFacts.NoCellsNoFaces | 03_challenge_maze3d/lessons/06_maze_game_camera.c:1051-1105 | a map with no pure-white and no pure-black cell yields an empty mesh |
| CubicmapMeshFacts.WindingMatchesNormal | 03_challenge_maze3d/lessons/06_maze_game_camera.c:873-1104 | for every face kind and both triangles, the cross product of the triangle's edges is the face's outward normal |
| CubicmapMeshFacts.TriangleEdgesScale | 03_challenge_maze3d/lessons/06_maze_game_camera.c:856-863 | the edges of each emitted triangle are the unit-cube edges scaled by cubeSize, wherever the cell lies |
| CubicmapMeshFacts.AsWrittenNormalsInward | 03_challenge_maze3d/lessons/06_maze_game_camera.c:928-976 | for the faces toward z+1 and z-1, the normal the code stores is the negation of the winding's normal |
| CubicmapMeshFacts.NormalCorrectionOnlyAlongZ | 03_challenge_maze3d/lessons/06_maze_game_camera.c:938-975 | the outward normals differ from the stored ones only for those two faces |
| CubicmapMeshFacts.StoredNormal | 03_challenge_maze3d/lessons/06_maze_game_camera.c:882-888 | the normal stored for the first vertex of face i is the code's normal for that face's kind |
| CubicmapMeshFacts.StoredFrontNormal | 03_challenge_maze3d/lessons/06_maze_game_camera.c:938-943 | every face toward z+1 is stored with normal z component −1 |
| CubicmapMeshFacts.SingleWallFaces | 03_challenge_maze3d/lessons/06_maze_game_camera.c:851-1050 | a 1 × 1 map holding one white cell yields the six faces top, bottom, front, back, right, left |
| CubicmapMeshFacts.SingleWallFrontNormal | 03_challenge_maze3d/lessons/06_maze_game_camera.c:938-943 | on that map, normal float 38 (the z component of vertex 12, the first of the z+1 face) is −1, while that face's outward normal has z component +1 |
| CubicmapMeshFacts.CornerInBox | 03_challenge_maze3d/lessons/06_maze_game_camera.c:856-863 | each of the eight cube corners of a cell on the map lies in [-s/2, (W-1/2)s] × [0, s] × [-s/2, (H-1/2)s] |
| CubicmapMeshFacts.VerticesInBox | 03_challenge_maze3d/lessons/06_maze_game_camera.c:851-863 | every vertex of faces on the map lies in the map's box |
| CubicmapMeshFacts.AtlasCornersInUnitSquare | 03_challenge_maze3d/lessons/06_maze_game_camera.c:844-849 | every corner of the six atlas rectangles lies in the unit square |
| CubicmapMeshFacts.TexcoordsInAtlas | 03_challenge_maze3d/lessons/06_maze_game_camera.c:844-849 | every texcoord of the stream lies in the unit square |
| CubicmapMeshFacts.NormalsUnitAxes | 03_challenge_maze3d/lessons/06_maze_game_camera.c:829-834 | every normal of the stream is one of the six unit axis vectors |
| CubicmapMeshFacts.MeshRanges | 03_challenge_maze3d/lessons/06_maze_game_camera.c:804-1157 | the generated mesh lies in the map's box, with texcoords in the atlas and unit axis normals |
| Collision.HalfTowardZero | 03_challenge_maze3d/lessons/06_maze_game_camera.c:1251-1252 | C's int division by 2, which truncates toward zero |
| Collision.TruncToInt | 03_challenge_maze3d/lessons/06_maze_game_camera.c:332 | the float-to-int conversion of a rectangle field, truncating toward zero |
| Collision.RecCentre | 03_challenge_maze3d/lessons/06_maze_game_camera.c:1251-1252 | the integer centre lies within the rectangle on each axis, at most half a unit short of the true centre, for either sign of the size |
| Collision.CheckCollisionCircleRec | 03_challenge_maze3d/lessons/06_maze_game_camera.c:1249-1267 | a hit needs the centre within half-extent plus radius on both axes |
| Collision.StagedTest | 03_challenge_maze3d/lessons/06_maze_game_camera.c:1257-1266 | the four early exits and the corner test; a hit is within half-extent plus radius on both axes |
| Collision.GapsDecide | 03_challenge_maze3d/lessons/06_maze_game_camera.c:1257-1266 | the staged test holds iff the squared gaps outside the half-extents sum to at most r², ties counting as hits |
| Collision.CircleRecIsNearestPoint | 03_challenge_maze3d/lessons/06_maze_game_camera.c:1249-1267 | the function collides iff the nearest point of the rectangle, centred at the integer-halved centre, is within the radius |
| Collision.CellRect | 03_challenge_maze3d/lessons/06_maze_game_camera.c:331-332 | the rectangle built for cell (x, y) truncates to (x, y, 1, 1) |
| Collision.CellRectIsCubeFootprint | 03_challenge_maze3d/lessons/06_maze_game_camera.c:331-332 | that rectangle's centre is (x, y), and the mesh's unit cube for the cell extends 0.5 either side of it |
| Collision.CellCollision | 03_challenge_maze3d/lessons/06_maze_game_camera.c:330-332 | the player touches cell (x, y) iff the nearest point of the unit square around (x, y) is within 0.1 |
| Collision.InsideCellCollides | 03_challenge_maze3d/lessons/06_maze_game_camera.c:1260-1261 | a player inside a cell's square always collides with it |
| Collision.IsCollider | 03_challenge_maze3d/lessons/06_maze_game_camera.c:330 | every pure-white cell is a collider and no pure-black cell is |
| Collision.WallCellsCollide | 03_challenge_maze3d/lessons/06_maze_game_camera.c:330 | every wall cell is a collider, but so is a red non-wall cell |
| Collision.RowHitIff | 03_challenge_maze3d/lessons/06_maze_game_camera.c:328-338 | the first n cells of a row hit iff some collider among them touches the player |
| Collision.RowsHitIff | 03_challenge_maze3d/lessons/06_maze_game_camera.c:326-339 | the first rows hit iff some collider cell in them is within 0.1 of the player |
| Collision.CollisionScanAsWritten | 03_challenge_maze3d/lessons/06_maze_game_camera.c:326-339 | with both loops bounded by the width, the position is the old one iff a collider among the first width rows touches the player, else the new one |
| Collision.CollisionScan | 03_challenge_maze3d/lessons/06_maze_game_camera.c:298-339 | over every row, the position is restored to the pre-move one iff some collider touches the player, else kept |
| Collision.ScanSkipsLowerRows | 03_challenge_maze3d/lessons/06_maze_game_camera.c:326 | a 1-wide, 2-tall map with a wall at (0, 1): the width-bounded scan finds no hit where the full scan does |
| Input.InputState.constructor | 03_challenge_maze3d/lessons/06_maze_game_camera.c:179-182 | the four state arrays have 512, 512, 3 and 3 entries, all zero |
| Input.InputState.IsKeyPressed | 03_challenge_maze3d/lessons/06_maze_game_camera.c:537-541 | a key is pressed iff its current state is PRESS and its previous state was not |
| Input.InputState.IsMouseButtonPressed | 03_challenge_maze3d/lessons/06_maze_game_camera.c:550-554 | a button is pressed iff its current state is PRESS and its previous state was not |
| Input.InputState.KeyCallback | 03_challenge_maze3d/lessons/06_maze_game_camera.c:376-383 | escape with PRESS requests closing and leaves the key states alone; any other event stores its action for that key only |
| Input.InputState.MouseButtonCallback | 03_challenge_maze3d/lessons/06_maze_game_camera.c:386-389 | stores the action for that button only |
| Input.InputState.PollInputEvents | 03_challenge_maze3d/lessons/06_maze_game_camera.c:571-580 | previous states become the current ones, current states are unchanged, and then no key or button is pressed |
| Input.PollThenKey | 03_challenge_maze3d/lessons/06_maze_game_camera.c:537-541 | after polling and an event for a non-escape key, the key is pressed iff the action is PRESS and the key was not already down |
| Input.PressLastsOneFrame | 03_challenge_maze3d/lessons/06_maze_game_camera.c:571-576 | without a new event, a press is reported for one frame only |
| CameraControl.ClampPitch | 03_challenge_maze3d/lessons/06_maze_game_camera.c:1228-1229 | the pitch ends within ±85°, unchanged inside, set to the nearer limit outside |
| CameraControl.ClampPitchIdempotent | 03_challenge_maze3d/lessons/06_maze_game_camera.c:1228-1229 | clamping twice is clamping once, and the clamp keeps the sign |
| CameraControl.TurnedAngle | 03_challenge_maze3d/lessons/06_maze_game_camera.c:1224-1229 | yaw moves by −0.003 per pixel of horizontal mouse motion; pitch likewise, kept within ±85° |
| CameraControl.PitchFollowsMouse | 03_challenge_maze3d/lessons/06_maze_game_camera.c:1225-1229 | moving the mouse down never raises the pitch and moving it up never lowers it |
| CameraControl.AnyMoveKeyHeld | 03_challenge_maze3d/lessons/06_maze_game_camera.c:1219-1221 | isMoving iff one of the six move keys is held |
| CameraControl.CameraState.constructor | 03_challenge_maze3d/lessons/06_maze_game_camera.c:1181-1182 | angle, swing counter and previous mouse position start at zero |
| CameraControl.CameraState.UpdateOrientation | 03_challenge_maze3d/lessons/06_maze_game_camera.c:1200-1236 | the mouse delta since last frame turns the camera, the pitch stays clamped, and the swing counter advances by one iff a move key is held |

## Left out

- Floating point: every float is an exact real. `CheckCollisionCircleRec`, the vertex positions and the texcoords carry no rounding. Boundary cases that depend on `0.1f` or on products rounding differently in the float code are not captured.
- Integer widths: `width * height * 12 * 3` and the scratch sizes are unbounded integers, so 32-bit overflow on huge maps is not modelled. The `char` state arrays hold the GLFW actions 0 to 2, which fit.
- CameraControl.CameraState.UpdateOrientation: `swingCounter` is a C `static int` that goes up by one on every frame with a move key held. The model's counter is unbounded, so the signed overflow after 2³¹ − 1 moving frames is not modelled.
- 16-bit pixel formats read the word at index k from bytes 2k (low) and 2k+1 (high), assuming a little-endian host.
- CubicmapMesh.GenMeshCubicmap: requires an image every pixel of which decodes, or one with no pixels. For an unknown format the code reads pixels that `GetImageData` never wrote. The method keeps one counter where the code keeps three (`vCounter`, `nCounter`, `tcCounter`), since the three always advance together.
- `malloc`, `free`, `TraceLog`, the GPU upload and the mesh's other fields are left out. The decoded pixel buffer is only ever read, so after `GetImageData` it is passed on as a sequence. Aliasing of that buffer is not captured.
- ImageData.LoadImage: the file system and stb_image are a parameter (`None` when the file does not open, otherwise the decoded size and bytes). The extension comparison is exact and case-sensitive, as `strcmp` is.
- Collision.CollisionScanAsWritten: requires width ≤ height. When the map is wider than tall, the width-bounded row loop reads past the pixel buffer, which is undefined behaviour in C.
- Collision.CollisionScan and Collision.CollisionScanAsWritten take the decoded pixels and the camera positions before and after `UpdateCamera` as parameters. `playerPos` is computed once and is not recomputed after a rollback, as in the code.
- `playerCellX`/`playerCellY` are left out: they are clamped but only printed.
- Input.InputState.KeyCallback: requires 0 ≤ key < 512. GLFW reports unknown keys as −1, which the code would write before the array.
- Input.InputState.MouseButtonCallback: requires a button below 3. GLFW can report up to eight buttons, which the code would write past the array.
- `glfwPollEvents`, `IsKeyDown`, `IsMouseButtonDown`, `GetMousePosition` and the window-close flag's effect on the main loop are external I/O. Key samples and mouse positions are parameters.
- The trigonometric part of `UpdateCamera` is left out: position, target, eye height and up-vector roll use `sinf`/`cosf`. The camera position is an input of the collision scan. `PI` is taken as 3.14159265358979323846 for `DEG2RAD`.
- Frame pacing (`SyncFrame`, `SetTargetFPS`), window creation, shaders, textures and matrix maths are left out.

## Findings

| source | as written | input that shows it | evidently intended | confidence | as-written member | corrected member |
|---|---|---|---|---|---|---|
| 03_challenge_maze3d/lessons/06_maze_game_camera.c:326 | the row loop of the collision scan runs `y < imMap.width` | a map 1 cell wide and 2 tall with a wall at (0, 1) and the player at (0, 1): the scan never visits row 1 and leaves the player inside the wall | `y < imMap.height`, so every row is scanned | high; not executed | Collision.CollisionScanAsWritten, Collision.ScanSkipsLowerRows | Collision.CollisionScan |
| 03_challenge_maze3d/lessons/06_maze_game_camera.c:938-975 | the face toward z+1 stores n6 = (0, 0, −1) and the face toward z−1 stores n5 = (0, 0, 1) | any pure-white cell with a pure-black neighbour at z+1: its front triangle v2, v7, v3 winds counter-clockwise around (0, 0, 1) but carries (0, 0, −1) | n5 on the z+1 face and n6 on the z−1 face, agreeing with the winding and pointing out of the cube | medium; not executed | CubicmapMesh.FaceNormalAsWritten, CubicmapMeshFacts.AsWrittenNormalsInward, CubicmapMeshFacts.SingleWallFrontNormal | CubicmapMesh.FaceNormal, CubicmapMeshFacts.WindingMatchesNormal |

For the second row, the generator keeps the normals the code stores, since those are what the mesh holds. `FaceNormal` is the corrected table, and `WindingMatchesNormal` proves it agrees with every triangle's winding.
