TestResult.DisplayName,TestResult.Outcome,TestResult.Duration,TestResult.ResourceCount,RandomSeed
Polyline.ParseListPrinted (correctness),Passed,00:00:00.2715826,389308,1
