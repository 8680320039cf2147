TestResult.DisplayName,TestResult.Outcome,TestResult.Duration,TestResult.ResourceCount,RandomSeed
Polyline.ParseListPrinted (correctness),Passed,00:00:00.2620607,891491,0
